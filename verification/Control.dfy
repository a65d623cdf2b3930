/** The control surface of the SNMP agent (mock-snmp-agent/src/control.rs):
    dotted OIDs and batch writes. */
module Control {
  import opened Numbers
  import opened Oids

  type Values = map<Oid, i64>

  // ----- Dotted OIDs -----

  predicate IsDigit(c: char) {
    '0' <= c <= '9'
  }

  predicate AllDigits(s: string) {
    forall i | 0 <= i < |s| :: IsDigit(s[i])
  }

  function Decimal(s: string): (r: nat)
    requires AllDigits(s)
  {
    if s == "" then 0 else Decimal(s[..|s| - 1]) * 10 + (s[|s| - 1] as int - '0' as int)
  }

  /** `str::parse::<u32>`: an optional plus sign, at least one digit, in range. */
  function ParseU32(s: string): (r: Option<u32>) {
    var digits := if s != "" && s[0] == '+' then s[1..] else s;
    if digits != "" && AllDigits(digits) && Decimal(digits) < U32_LIMIT then Some(Decimal(digits)) else None
  }

  // ----- What is accepted -----

  function Pow10(n: nat): (r: nat) {
    if n == 0 then 1 else 10 * Pow10(n - 1)
  }

  predicate DigitString(s: string) {
    forall i | 0 <= i < |s| :: '0' <= s[i] <= '9'
  }

  /** The number a digit string stands for, by place values from the left. */
  function PlaceValue(s: string): (n: nat)
    requires DigitString(s)
  {
    if s == "" then 0 else (s[0] as int - '0' as int) * Pow10(|s| - 1) + PlaceValue(s[1..])
  }

  lemma {:induction false} PlaceValueEnd(s: string, c: char)
    requires DigitString(s) && '0' <= c <= '9'
    ensures DigitString(s + [c])
    ensures PlaceValue(s + [c]) == 10 * PlaceValue(s) + (c as int - '0' as int)
  {
    if s == "" {
      assert s + [c] == [c] && Pow10(0) == 1;
    } else {
      PlaceValueEnd(s[1..], c);
      assert (s + [c])[1..] == s[1..] + [c];
      TenTimes(s[0] as int - '0' as int, Pow10(|s| - 1));
    }
  }

  lemma TenTimes(d: int, e: int)
    ensures d * (10 * e) == 10 * (d * e)
  {
  }

  lemma {:induction false} DecimalIsPlaceValue(s: string)
    requires AllDigits(s)
    ensures DigitString(s) && Decimal(s) == PlaceValue(s)
  {
    assert forall i | 0 <= i < |s| :: IsDigit(s[i]) && '0' <= s[i] <= '9';
    if s != "" {
      DecimalIsPlaceValue(s[..|s| - 1]);
      PlaceValueEnd(s[..|s| - 1], s[|s| - 1]);
      assert s == s[..|s| - 1] + [s[|s| - 1]];
    }
  }

  lemma SameDigits(s: string)
    ensures DigitString(s) <==> AllDigits(s)
  {
    assert DigitString(s) ==> forall i | 0 <= i < |s| :: IsDigit(s[i]);
    assert AllDigits(s) ==> forall i | 0 <= i < |s| :: IsDigit(s[i]) && '0' <= s[i] <= '9';
  }

  /** An optional plus sign, then one or more digits worth `n`. */
  predicate Numeral(s: string, n: nat) {
    var digits := if s != "" && s[0] == '+' then s[1..] else s;
    digits != "" && DigitString(digits) && PlaceValue(digits) == n
  }

  /** A segment is accepted exactly when it is a numeral below 2^32, as its value. */
  lemma ParseU32Exactly(s: string, n: nat)
    ensures ParseU32(s) == Some(n) <==> Numeral(s, n) && n < 0x1_0000_0000
    ensures ParseU32(s).Some? ==> Numeral(s, ParseU32(s).value)
  {
    var digits := if s != "" && s[0] == '+' then s[1..] else s;
    SameDigits(digits);
    if AllDigits(digits) {
      DecimalIsPlaceValue(digits);
    }
  }

  function JoinDots(parts: seq<string>): (s: string)
    requires parts != []
  {
    if |parts| == 1 then parts[0] else parts[0] + "." + JoinDots(parts[1..])
  }

  /** Splitting at dots: no part holds one, and joined by dots they are the whole. */
  lemma {:induction false} SplitIsExact(s: string)
    ensures JoinDots(Split(s)) == s
    ensures forall part | part in Split(s) :: '.' !in part
  {
    if s != "" {
      SplitIsExact(s[1..]);
      var parts := Split(s[1..]);
      if s[0] == '.' {
        assert ([""] + parts)[1..] == parts;
        assert "" + "." + JoinDots(parts) == s;
      } else {
        assert ([[s[0]] + parts[0]] + parts[1..])[1..] == parts[1..];
        assert [s[0]] + s[1..] == s;
      }
    }
  }

  /** Every character but the dots stands in some segment. */
  lemma {:induction false} CharacterInPart(s: string, c: char) returns (part: string)
    requires c in s && c != '.'
    ensures part in Split(s) && c in part
  {
    var parts := Split(s[1..]);
    if s[0] == c {
      part := [s[0]] + parts[0];
      assert part == Split(s)[0];
    } else {
      part := CharacterInPart(s[1..], c);
      if s[0] == '.' {
        assert Split(s) == [""] + parts;
      } else if part == parts[0] {
        part := [s[0]] + parts[0];
        assert part == Split(s)[0] && part[1..] == parts[0];
      } else {
        assert part in parts[1..];
        assert Split(s)[1..] == parts[1..];
      }
    }
  }

  /** A dotted string with any character that is no digit, dot or plus sign is no OID. */
  lemma StrayCharacterIsRefused(dotted: string, c: char)
    requires c in dotted && !('0' <= c <= '9') && c != '.' && c != '+'
    ensures ParseOid(dotted) == None
  {
    var part := CharacterInPart(dotted, c);
    StrayPart(part, c);
  }

  lemma StrayPart(part: string, c: char)
    requires c in part && !('0' <= c <= '9') && c != '+'
    ensures ParseU32(part).None?
  {
    var digits := if part[0] == '+' then part[1..] else part;
    assert part == (if part[0] == '+' then "+" else "") + digits;
    assert c in digits;
    SameDigits(digits);
  }


  /** `str::split('.')`. */
  function Split(s: string): (parts: seq<string>)
    ensures |parts| >= 1
  {
    if s == "" then [""]
    else if s[0] == '.' then [""] + Split(s[1..])
    else
      var parts := Split(s[1..]);
      [[s[0]] + parts[0]] + parts[1..]
  }

  function ParseAll(parts: seq<string>): (r: Option<Oid>)
    ensures r.Some? ==> |r.value| == |parts|
    ensures r.Some? ==> forall i | 0 <= i < |parts| :: ParseU32(parts[i]) == Some(r.value[i])
    ensures r.None? <==> exists part :: part in parts && ParseU32(part).None?
  {
    if parts == [] then Some([])
    else
      var arc :- ParseU32(parts[0]);
      var rest := ParseAll(parts[1..]);
      if rest.None? then None else Some([arc] + rest.value)
  }

  /** `parse_oid`: refused exactly when some segment is not a u32, and never
      the empty OID. */
  function ParseOid(dotted: string): (r: Option<Oid>)
    ensures r.None? <==> exists part :: part in Split(dotted) && ParseU32(part).None?
    ensures r.Some? ==> |r.value| == |Split(dotted)| >= 1
  {
    ParseAll(Split(dotted))
  }

  /** Segment by segment, an OID is accepted exactly when every segment is a numeral
      below 2^32, and its arcs are their values in order. */
  lemma ParseOidExactly(dotted: string, oid: Oid)
    ensures ParseOid(dotted) == Some(oid) <==>
      && |oid| == |Split(dotted)|
      && forall i | 0 <= i < |oid| :: Numeral(Split(dotted)[i], oid[i])
  {
    var parts := Split(dotted);
    if |oid| == |parts| && forall i | 0 <= i < |oid| :: Numeral(parts[i], oid[i]) {
      forall i | 0 <= i < |parts|
        ensures ParseU32(parts[i]) == Some(oid[i])
      {
        ParseU32Exactly(parts[i], oid[i]);
      }
      assert forall part | part in parts :: ParseU32(part).Some?;
      assert ParseOid(dotted).value == oid;
    }
    if ParseOid(dotted) == Some(oid) {
      forall i | 0 <= i < |oid|
        ensures Numeral(parts[i], oid[i])
      {
        ParseU32Exactly(parts[i], oid[i]);
      }
    }
  }


  function Render(n: nat): (s: string)
    ensures s != "" && AllDigits(s)
  {
    if n < 10 then [(n + '0' as int) as char] else Render(n / 10) + [(n % 10 + '0' as int) as char]
  }

  lemma RenderRoundTrip(n: nat)
    ensures Decimal(Render(n)) == n
  {
    if n < 10 {
      assert Render(n)[..0] == "";
    } else {
      var s := Render(n);
      assert s[..|s| - 1] == Render(n / 10);
    }
  }

  function Dotted(oid: Oid): (r: string) {
    if oid == [] then ""
    else if |oid| == 1 then Render(oid[0])
    else Render(oid[0]) + "." + Dotted(oid[1..])
  }

  lemma {:induction false} SplitAtDot(head: string, tail: string)
    requires AllDigits(head)
    ensures Split(head + "." + tail) == [head] + Split(tail)
    ensures Split(head) == [head]
  {
    var s := head + "." + tail;
    if head == "" {
      assert s[1..] == tail;
    } else {
      SplitAtDot(head[1..], tail);
      assert s[1..] == head[1..] + "." + tail;
      assert [head[0]] + head[1..] == head;
      assert IsDigit(head[0]);
    }
  }

  /** Every OID has a dotted form that parses back to it. */
  lemma {:induction false} DottedRoundTrip(oid: Oid)
    requires oid != []
    ensures ParseOid(Dotted(oid)) == Some(oid)
  {
    var head := Render(oid[0]);
    RenderRoundTrip(oid[0]);
    assert IsDigit(head[0]);
    assert ParseU32(head) == Some(oid[0]);
    if |oid| == 1 {
      SplitAtDot(head, "");
      assert [head][1..] == [];
      assert ParseAll([head]).value == [oid[0]];
      assert oid == [oid[0]];
    } else {
      DottedRoundTrip(oid[1..]);
      SplitAtDot(head, Dotted(oid[1..]));
      var parts := [head] + Split(Dotted(oid[1..]));
      assert parts[1..] == Split(Dotted(oid[1..]));
      assert oid == [oid[0]] + oid[1..];
    }
  }

  // ----- Batches -----

  datatype Write = Write(oid: Oid, value: i64)

  /** Inserts, in order. */
  function Apply(values: Values, batch: seq<Write>): (r: Values) {
    if batch == [] then values
    else Apply(values, batch[..|batch| - 1])[batch[|batch| - 1].oid := batch[|batch| - 1].value]
  }

  function Targets(batch: seq<Write>): (r: set<Oid>) {
    if batch == [] then {} else Targets(batch[..|batch| - 1]) + {batch[|batch| - 1].oid}
  }

  /** `k` holds the value of its last write in the batch, or is untouched. */
  lemma {:induction false} ApplyAt(values: Values, batch: seq<Write>, k: Oid)
    ensures Apply(values, batch).Keys == values.Keys + Targets(batch)
    ensures k !in Targets(batch) && k in values ==> Apply(values, batch)[k] == values[k]
    ensures k in Targets(batch) ==> exists i :: 0 <= i < |batch| && batch[i] == Write(k, Apply(values, batch)[k])
  {
    if batch != [] {
      var rest := batch[..|batch| - 1];
      var last := batch[|batch| - 1];
      ApplyAt(values, rest, k);
      if k == last.oid {
        assert batch[|batch| - 1] == Write(k, Apply(values, batch)[k]);
      } else if k in Targets(rest) {
        var i :| 0 <= i < |rest| && rest[i] == Write(k, Apply(values, rest)[k]);
        assert batch[i] == rest[i];
      }
    }
  }

  lemma {:induction false} TargetsAre(batch: seq<Write>, k: Oid)
    ensures k in Targets(batch) <==> exists i :: 0 <= i < |batch| && batch[i].oid == k
  {
    if batch != [] {
      var rest := batch[..|batch| - 1];
      TargetsAre(rest, k);
      if i :| 0 <= i < |batch| && batch[i].oid == k {
        assert i < |rest| ==> rest[i].oid == k;
      }
      if i :| 0 <= i < |rest| && rest[i].oid == k {
        assert batch[i].oid == k;
      }
    }
  }

  predicate WellFormed(body: map<string, i64>) {
    forall s | s in body :: ParseOid(s).Some?
  }

  /** Every segment of every key is a numeral below 2^32. */
  ghost predicate AllNumerals(body: map<string, i64>) {
    forall s, part | s in body && part in Split(s) :: NumeralBelow(part)
  }

  ghost predicate NumeralBelow(part: string) {
    exists n: nat :: Numeral(part, n) && n < 0x1_0000_0000
  }

  lemma NumeralBelowParses(part: string)
    ensures NumeralBelow(part) <==> ParseU32(part).Some?
  {
    if n: nat :| Numeral(part, n) && n < 0x1_0000_0000 {
      ParseU32Exactly(part, n);
    }
    if ParseU32(part).Some? {
      ParseU32Exactly(part, ParseU32(part).value);
    }
  }

  lemma WellFormedExactly(body: map<string, i64>)
    ensures WellFormed(body) <==> AllNumerals(body)
  {
    forall part
      ensures NumeralBelow(part) <==> ParseU32(part).Some?
    {
      NumeralBelowParses(part);
    }
  }

  /** An iteration order of the request's hash map. */
  ghost predicate IsOrder(keys: set<string>, order: seq<string>) {
    && (forall s :: s in order <==> s in keys)
    && forall i, j | 0 <= i < j < |order| :: order[i] != order[j]
  }

  /** The parsed batch, in iteration order. */
  function Parsed(body: map<string, i64>, order: seq<string>): (batch: seq<Write>)
    requires forall s | s in order :: s in body && ParseOid(s).Some?
    ensures |batch| == |order|
    ensures forall i | 0 <= i < |batch| :: batch[i] == Write(ParseOid(order[i]).value, body[order[i]])
  {
    seq(|order|, i requires 0 <= i < |order| => Write(ParseOid(order[i]).value, body[order[i]]))
  }

  lemma {:induction false} OrderExists(keys: set<string>) returns (order: seq<string>)
    ensures IsOrder(keys, order)
    decreases |keys|
  {
    if keys == {} {
      order := [];
    } else {
      var s :| s in keys;
      var rest := OrderExists(keys - {s});
      order := rest + [s];
      assert forall x :: x in order <==> x in rest || x == s;
    }
  }

  /** Two spellings of one OID carrying different values. */
  predicate Conflict(body: map<string, i64>, s: string, t: string) {
    s in body && t in body && ParseOid(s) == ParseOid(t) && body[s] != body[t]
  }

  lemma ConflictShows(values: Values, body: map<string, i64>, s: string, t: string)
    returns (o: seq<string>, p: seq<string>)
    requires WellFormed(body) && Conflict(body, s, t)
    ensures IsOrder(body.Keys, o) && IsOrder(body.Keys, p)
    ensures Apply(values, Parsed(body, o)) != Apply(values, Parsed(body, p))
  {
    var rest := OrderExists(body.Keys - {s, t});
    o, p := rest + [s, t], rest + [t, s];
    OrderExtends(body.Keys, rest, s, t);
    OrderExtends(body.Keys, rest, t, s);
    LastWriteWins(values, Parsed(body, o), ParseOid(s).value, body[t]);
    LastWriteWins(values, Parsed(body, p), ParseOid(s).value, body[s]);
  }

  lemma OrderExtends(keys: set<string>, rest: seq<string>, s: string, t: string)
    requires s in keys && t in keys && s != t && IsOrder(keys - {s, t}, rest)
    ensures IsOrder(keys, rest + [s, t])
  {
    assert forall x :: x in rest + [s, t] <==> x in rest || x == s || x == t;
    assert forall i | 0 <= i < |rest| :: rest[i] in rest;
  }

  lemma LastWriteWins(values: Values, batch: seq<Write>, k: Oid, v: i64)
    requires |batch| > 0 && batch[|batch| - 1] == Write(k, v)
    ensures k in Apply(values, batch) && Apply(values, batch)[k] == v
  {
  }

  lemma NoConflictAgrees(values: Values, body: map<string, i64>, o: seq<string>, p: seq<string>)
    requires WellFormed(body) && forall s, t :: !Conflict(body, s, t)
    requires IsOrder(body.Keys, o) && IsOrder(body.Keys, p)
    ensures Apply(values, Parsed(body, o)) == Apply(values, Parsed(body, p))
  {
    var a, b := Apply(values, Parsed(body, o)), Apply(values, Parsed(body, p));
    forall k
      ensures k in a <==> k in b
      ensures k in a ==> a[k] == b[k]
    {
      NoConflictAgreesAt(values, body, o, p, k);
    }
    SameMap(a, b);
  }

  lemma SameMap(a: Values, b: Values)
    requires forall k :: (k in a <==> k in b) && (k in a ==> a[k] == b[k])
    ensures a == b
  {
    assert a.Keys == b.Keys;
  }

  lemma NoConflictAgreesAt(values: Values, body: map<string, i64>, o: seq<string>, p: seq<string>, k: Oid)
    requires WellFormed(body) && forall s, t :: !Conflict(body, s, t)
    requires IsOrder(body.Keys, o) && IsOrder(body.Keys, p)
    ensures
      var a, b := Apply(values, Parsed(body, o)), Apply(values, Parsed(body, p));
      (k in a <==> k in b) && (k in a ==> a[k] == b[k])
  {
    var a, b := Parsed(body, o), Parsed(body, p);
    TargetsOfOrder(body, o, k);
    TargetsOfOrder(body, p, k);
    ApplyAt(values, a, k);
    ApplyAt(values, b, k);
    if k in Targets(a) {
      var i :| 0 <= i < |a| && a[i] == Write(k, Apply(values, a)[k]);
      var j :| 0 <= j < |b| && b[j] == Write(k, Apply(values, b)[k]);
      assert o[i] in o && p[j] in p;
      assert !Conflict(body, o[i], p[j]);
    }
  }

  lemma TargetsOfOrder(body: map<string, i64>, order: seq<string>, k: Oid)
    requires WellFormed(body) && IsOrder(body.Keys, order)
    ensures k in Targets(Parsed(body, order)) <==> exists s :: s in body && ParseOid(s) == Some(k)
  {
    var batch := Parsed(body, order);
    TargetsAre(batch, k);
    if s :| s in body && ParseOid(s) == Some(k) {
      assert s in order;
      var i :| 0 <= i < |order| && order[i] == s;
      assert batch[i].oid == k;
    }
    if i :| 0 <= i < |batch| && batch[i].oid == k {
      assert order[i] in order && ParseOid(order[i]) == Some(k);
    }
  }

  /** The stored result is the same for every iteration order of the request if
      and only if no two spellings of one OID carry different values. */
  lemma BatchOrderIrrelevant(values: Values, body: map<string, i64>)
    requires WellFormed(body)
    ensures (forall o, p | IsOrder(body.Keys, o) && IsOrder(body.Keys, p) ::
               Apply(values, Parsed(body, o)) == Apply(values, Parsed(body, p)))
       <==> forall s, t :: !Conflict(body, s, t)
  {
    if s, t :| Conflict(body, s, t) {
      var o, p := ConflictShows(values, body, s, t);
    } else {
      forall o, p | IsOrder(body.Keys, o) && IsOrder(body.Keys, p)
        ensures Apply(values, Parsed(body, o)) == Apply(values, Parsed(body, p))
      {
        NoConflictAgrees(values, body, o, p);
      }
    }
  }

  lemma TwoArcs(a: string, b: string)
    requires AllDigits(a) && AllDigits(b) && ParseU32(a).Some? && ParseU32(b).Some?
    ensures ParseOid(a + "." + b) == Some([ParseU32(a).value, ParseU32(b).value])
  {
    SplitAtDot(a, b);
    SplitAtDot(b, "");
    assert [a, b][1..] == [b] && [b][1..] == [];
    assert ParseAll([b]).value == [ParseU32(b).value];
    assert [a] + Split(b) == [a, b];
    assert ParseAll([a, b]).value == [ParseU32(a).value, ParseU32(b).value];
  }

  lemma TwoSpellingsOfTwo()
    ensures ParseU32("2") == ParseU32("02") == Some(2)
  {
    assert "02"[..1] == "0" && Decimal("02") == Decimal("0") * 10 + 2;
  }

  /** One OID can be spelt in several ways, so such a request exists. */
  lemma SpellingsCollide()
    ensures Conflict(map["2.2" := 5, "2.02" := 6], "2.2", "2.02")
  {
    TwoSpellingsOfTwo();
    TwoArcs("2", "2");
    TwoArcs("2", "02");
    assert "2" + "." + "2" == "2.2" && "2" + "." + "02" == "2.02";
    assert |"2.2"| != |"2.02"|;
  }
}
