/** Object identifiers: their lexicographic order, the successor GetNext
    serves, and the dotted form of the control surface. */
module Oids {
  import opened Numbers

  type Oid = seq<u32>

  /** `Vec<u32>`'s order: lexicographic, a proper prefix first. */
  predicate Less(a: Oid, b: Oid) {
    |b| > 0 && (|a| == 0 || a[0] < b[0] || (a[0] == b[0] && Less(a[1..], b[1..])))
  }

  predicate LessEq(a: Oid, b: Oid) {
    a == b || Less(a, b)
  }

  /** At `k` the two OIDs part: equal so far, then `a` ends or has the smaller arc. */
  predicate PartAt(a: Oid, b: Oid, k: nat) {
    k <= |a| && k < |b| && a[..k] == b[..k] && (k == |a| || a[k] < b[k])
  }

  lemma FirstArcs(a: Oid, b: Oid, k: nat)
    requires PartAt(a, b, k) && k > 0
    ensures |a| > 0 && |b| > 0 && a[0] == b[0]
  {
    assert a[..k][0] == b[..k][0];
  }

  /** The order is lexicographic. */
  lemma {:induction false} LessIsLexicographic(a: Oid, b: Oid)
    ensures Less(a, b) <==> exists k: nat :: PartAt(a, b, k)
  {
    if |a| > 0 && |b| > 0 && a[0] == b[0] {
      LessIsLexicographic(a[1..], b[1..]);
      if k: nat :| PartAt(a[1..], b[1..], k) {
        assert a[..k + 1] == [a[0]] + a[1..][..k] && b[..k + 1] == [b[0]] + b[1..][..k];
        assert PartAt(a, b, k + 1);
      }
      if k: nat :| PartAt(a, b, k) {
        assert k > 0;
        assert a[1..][..k - 1] == a[..k][1..] && b[1..][..k - 1] == b[..k][1..];
        assert PartAt(a[1..], b[1..], k - 1);
      }
    } else {
      if k: nat :| PartAt(a, b, k) {
        if k > 0 {
          FirstArcs(a, b, k);
        }
      }
      if |b| > 0 && (|a| == 0 || a[0] < b[0]) {
        assert PartAt(a, b, 0);
      }
    }
  }

  lemma {:induction false} LessIrreflexive(a: Oid)
    ensures !Less(a, a)
  {
    if |a| > 0 {
      LessIrreflexive(a[1..]);
    }
  }

  lemma {:induction false} LessTransitive(a: Oid, b: Oid, c: Oid)
    requires Less(a, b) && Less(b, c)
    ensures Less(a, c)
  {
    if |a| > 0 && a[0] == b[0] && b[0] == c[0] {
      LessTransitive(a[1..], b[1..], c[1..]);
    }
  }

  lemma {:induction false} LessTotal(a: Oid, b: Oid)
    ensures Less(a, b) || a == b || Less(b, a)
  {
    if |a| > 0 && |b| > 0 && a[0] == b[0] {
      LessTotal(a[1..], b[1..]);
      assert a == [a[0]] + a[1..] && b == [b[0]] + b[1..];
    }
  }

  lemma LessAsymmetric(a: Oid, b: Oid)
    requires Less(a, b)
    ensures !Less(b, a)
  {
    if Less(b, a) {
      LessTransitive(a, b, a);
      LessIrreflexive(a);
    }
  }

  /** The keys a GetNext from `oid` may answer with. */
  function Above(keys: set<Oid>, oid: Oid): (r: set<Oid>)
    ensures forall k :: k in r <==> k in keys && Less(oid, k)
  {
    set k | k in keys && Less(oid, k)
  }

  predicate IsLeast(s: set<Oid>, k: Oid) {
    k in s && forall j | j in s :: LessEq(k, j)
  }

  lemma {:induction false} LeastExists(s: set<Oid>) returns (k: Oid)
    requires s != {}
    ensures IsLeast(s, k)
    decreases |s|
  {
    var x :| x in s;
    var rest := s - {x};
    if rest == {} {
      k := x;
      assert forall j | j in s :: j == x || j in rest;
    } else {
      var m := LeastExists(rest);
      LessTotal(x, m);
      k := if Less(x, m) then x else m;
      forall j | j in s
        ensures LessEq(k, j)
      {
        if j != x && k == x {
          assert j in rest;
          if j != m {
            LessTransitive(x, m, j);
          }
        }
      }
    }
  }

  ghost function Least(s: set<Oid>): (k: Oid)
    requires s != {}
    ensures IsLeast(s, k)
  {
    assert exists k :: IsLeast(s, k) by {
      var k := LeastExists(s);
    }
    var k :| IsLeast(s, k);
    k
  }

  /** RFC 3416 section 4.2.2: the lexicographic successor, if any. */
  ghost function Successor(keys: set<Oid>, oid: Oid): (r: Option<Oid>)
    ensures r.None? <==> forall k | k in keys :: !Less(oid, k)
    ensures r.Some? ==> r.value in keys && Less(oid, r.value)
    ensures r.Some? ==> forall k | k in keys && Less(oid, k) :: LessEq(r.value, k)
  {
    var above := Above(keys, oid);
    if above == {} then
      assert forall k | k in keys :: k !in above;
      None
    else
      Some(Least(above))
  }

  /** Strictly increasing, hence duplicate-free. */
  predicate Sorted(s: seq<Oid>) {
    forall i, j | 0 <= i < j < |s| :: Less(s[i], s[j])
  }

  function Elements(s: seq<Oid>): (r: set<Oid>) {
    set k | k in s
  }

  /** Insertion into a sorted sequence. */
  method Insert(s: seq<Oid>, k: Oid) returns (r: seq<Oid>)
    requires Sorted(s) && k !in s
    ensures Sorted(r) && Elements(r) == Elements(s) + {k}
  {
    var i := 0;
    while i < |s| && Less(s[i], k)
      invariant 0 <= i <= |s|
      invariant forall j | 0 <= j < i :: Less(s[j], k)
    {
      i := i + 1;
    }
    r := s[..i] + [k] + s[i..];
    forall j | i <= j < |s|
      ensures Less(k, s[j])
    {
      LessTotal(s[i], k);
      if j > i {
        LessTransitive(k, s[i], s[j]);
      }
    }
    assert Elements(r) == Elements(s) + {k} by {
      assert forall x :: x in r <==> x in s[..i] || x == k || x in s[i..];
      assert s == s[..i] + s[i..];
    }
  }

  /** `keys().filter(|k| k > oid)` collected in whatever order the hash map
      iterates, then sorted. */
  method SortedCandidates(keys: set<Oid>, oid: Oid) returns (candidates: seq<Oid>)
    ensures Sorted(candidates)
    ensures Elements(candidates) == Above(keys, oid)
  {
    candidates := [];
    var todo := keys;
    while todo != {}
      invariant todo <= keys
      invariant Sorted(candidates)
      invariant Elements(candidates) == Above(keys - todo, oid)
      decreases todo
    {
      var k :| k in todo;
      if Less(oid, k) {
        assert k !in Elements(candidates);
        candidates := Insert(candidates, k);
      }
      todo := todo - {k};
    }
  }

  /** The OIDs a manager visits by iterating GetNext on a fixed map until
      EndOfMibView; it ends because fewer keys lie above each answer. */
  ghost function Walk(keys: set<Oid>, oid: Oid): (r: seq<Oid>)
    decreases |Above(keys, oid)|
  {
    match Successor(keys, oid)
    case None => []
    case Some(k) =>
      AboveShrinks(keys, oid, k);
      [k] + Walk(keys, k)
  }

  lemma AboveShrinks(keys: set<Oid>, oid: Oid, k: Oid)
    requires Successor(keys, oid) == Some(k)
    ensures Above(keys, oid) == {k} + Above(keys, k) && k !in Above(keys, k)
    ensures |Above(keys, k)| + 1 == |Above(keys, oid)|
  {
    LessIrreflexive(k);
    forall j | j in keys
      ensures Less(oid, j) <==> j == k || Less(k, j)
    {
      if Less(k, j) {
        LessTransitive(oid, k, j);
      }
    }
    assert Above(keys, oid) == {k} + Above(keys, k);
  }

  /** A sorted sequence is determined by its elements. */
  lemma {:induction false} SortedIsUnique(a: seq<Oid>, b: seq<Oid>)
    requires Sorted(a) && Sorted(b) && Elements(a) == Elements(b)
    ensures a == b
  {
    assert (a == []) == (Elements(a) == {}) by {
      assert a != [] ==> a[0] in Elements(a);
    }
    assert (b == []) == (Elements(b) == {}) by {
      assert b != [] ==> b[0] in Elements(b);
    }
    if a != [] {
      assert a[0] in Elements(b) && b[0] in Elements(a);
      if a[0] != b[0] {
        var i :| 0 <= i < |a| && a[i] == b[0];
        var j :| 0 <= j < |b| && b[j] == a[0];
        LessAsymmetric(a[0], b[0]);
        assert false;
      }
      LessIrreflexive(a[0]);
      forall x
        ensures x in a[1..] <==> x in b[1..]
      {
        assert x in a <==> x == a[0] || x in a[1..];
        assert x in b <==> x == b[0] || x in b[1..];
        assert x in Elements(a) <==> x in Elements(b);
        assert a[0] !in a[1..] && b[0] !in b[1..];
      }
      SortedIsUnique(a[1..], b[1..]);
      assert a == [a[0]] + a[1..] && b == [b[0]] + b[1..];
    }
  }

  /** A walk of a fixed map visits every greater key once, in order: it is the
      sorted sequence of greater keys, whatever sorts it. */
  lemma {:induction false} WalkIsTheSortedKeys(keys: set<Oid>, oid: Oid)
    ensures Sorted(Walk(keys, oid))
    ensures Elements(Walk(keys, oid)) == Above(keys, oid)
    ensures |Walk(keys, oid)| == |Above(keys, oid)|
    decreases |Above(keys, oid)|
  {
    match Successor(keys, oid)
    case None =>
      assert Above(keys, oid) == {};
    case Some(k) =>
      AboveShrinks(keys, oid, k);
      WalkIsTheSortedKeys(keys, k);
      assert Walk(keys, oid) == [k] + Walk(keys, k);
      assert forall x | x in Walk(keys, k) :: x in Elements(Walk(keys, k));
      SortedBelow(k, Walk(keys, k));
  }

  lemma SortedBelow(k: Oid, rest: seq<Oid>)
    requires Sorted(rest) && forall x | x in rest :: Less(k, x)
    ensures Sorted([k] + rest) && Elements([k] + rest) == {k} + Elements(rest)
  {
    var w := [k] + rest;
    forall i, j | 0 <= i < j < |w|
      ensures Less(w[i], w[j])
    {
      assert w[j] == rest[j - 1] && rest[j - 1] in rest;
    }
    assert forall x :: x in w <==> x == k || x in rest;
  }

  /** What the code's filter, sort and `first` compute is the successor, and
      the whole sorted candidate list is the rest of the walk. */
  lemma CandidatesAreTheWalk(keys: set<Oid>, oid: Oid, candidates: seq<Oid>)
    requires Sorted(candidates) && Elements(candidates) == Above(keys, oid)
    ensures candidates == Walk(keys, oid)
    ensures Successor(keys, oid) == if candidates == [] then None else Some(candidates[0])
  {
    WalkIsTheSortedKeys(keys, oid);
    SortedIsUnique(candidates, Walk(keys, oid));
  }

  /** The manager's position after `i` answers. */
  function Position(start: Oid, visited: seq<Oid>, i: nat): (r: Oid)
    requires i <= |visited|
  {
    if i == 0 then start else visited[i - 1]
  }

  /** Keys are only ever added. */
  predicate Growing(snaps: seq<set<Oid>>) {
    forall i, j | 0 <= i <= j < |snaps| :: snaps[i] <= snaps[j]
  }

  /** The `i`-th answer is the successor of the position in `snaps[i]`. */
  ghost predicate Answered(snaps: seq<set<Oid>>, start: Oid, visited: seq<Oid>, i: nat)
    requires i < |visited| <= |snaps|
  {
    Successor(snaps[i], Position(start, visited, i)) == Some(visited[i])
  }

  /** A walk whose `i`-th GetNext is answered from the key set `snaps[i]`. */
  ghost predicate LiveWalk(snaps: seq<set<Oid>>, start: Oid, visited: seq<Oid>) {
    && |visited| <= |snaps|
    && forall i | 0 <= i < |visited| :: Answered(snaps, start, visited, i)
  }

  lemma {:induction false} LiveWalkIncreases(snaps: seq<set<Oid>>, start: Oid, visited: seq<Oid>, i: nat, j: nat)
    requires LiveWalk(snaps, start, visited) && i < j <= |visited|
    ensures Less(Position(start, visited, i), Position(start, visited, j))
    decreases j
  {
    assert Answered(snaps, start, visited, j - 1);
    if i < j - 1 {
      LiveWalkIncreases(snaps, start, visited, i, j - 1);
      LessTransitive(Position(start, visited, i), Position(start, visited, j - 1), visited[j - 1]);
    }
  }

  /** A key present when the walk stands before it is never jumped over. */
  lemma {:induction false} NothingIsSkipped(snaps: seq<set<Oid>>, start: Oid, visited: seq<Oid>, i: nat, k: Oid)
    requires Growing(snaps) && LiveWalk(snaps, start, visited)
    requires i <= |visited| < |snaps|
    requires k in snaps[i] && Less(Position(start, visited, i), k)
    requires Successor(snaps[|visited|], Position(start, visited, |visited|)).None?
    ensures k in visited[i..]
    decreases |visited| - i
  {
    assert snaps[i] <= snaps[|visited|];
    if i < |visited| {
      assert Answered(snaps, start, visited, i);
      if k == visited[i] {
        assert k == visited[i..][0];
      } else {
        assert snaps[i] <= snaps[i + 1];
        NothingIsSkipped(snaps, start, visited, i + 1, k);
        assert visited[i..] == [visited[i]] + visited[i + 1..];
      }
    }
  }

  /** A walk under concurrent inserts: answers strictly increase, and when
      EndOfMibView arrives every key present at the start (and every key that
      was inserted ahead of the walk) has been visited. */
  lemma LiveWalkIsComplete(snaps: seq<set<Oid>>, start: Oid, visited: seq<Oid>)
    requires Growing(snaps) && LiveWalk(snaps, start, visited)
    requires |visited| < |snaps|
    requires Successor(snaps[|visited|], Position(start, visited, |visited|)).None?
    ensures Sorted([start] + visited)
    ensures forall i, k | 0 <= i <= |visited| && k in snaps[i] && Less(Position(start, visited, i), k) ::
              k in visited[i..]
    ensures Above(snaps[0], start) <= Elements(visited)
  {
    var all := [start] + visited;
    forall i, j | 0 <= i < j < |all|
      ensures Less(all[i], all[j])
    {
      LiveWalkIncreases(snaps, start, visited, i, j);
      assert all[i] == Position(start, visited, i) && all[j] == Position(start, visited, j);
    }
    forall i, k | 0 <= i <= |visited| && k in snaps[i] && Less(Position(start, visited, i), k)
      ensures k in visited[i..]
    {
      NothingIsSkipped(snaps, start, visited, i, k);
    }
    forall k | k in Above(snaps[0], start)
      ensures k in visited
    {
      NothingIsSkipped(snaps, start, visited, 0, k);
    }
  }
}
