/** String helpers the store relies on: str.find for one character and the
    ordering Python 2 uses to sort byte strings (list.sort on keys and on
    glob results). */
module Strings {

  /** Index of the first occurrence of c in s, or -1 when there is none. */
  function Find(s: string, c: char): (r: int)
    ensures -1 <= r < |s|
    ensures r == -1 <==> c !in s
    ensures r >= 0 ==> s[r] == c && c !in s[..r]
  {
    if |s| == 0 then -1
    else if s[0] == c then 0
    else
      var i := Find(s[1..], c);
      assert s == [s[0]] + s[1..];
      if i < 0 then -1
      else
        assert s[..i + 1] == [s[0]] + s[1..][..i];
        i + 1
  }

  /** Byte-string order: compare character codes from the left; a proper
      prefix comes first. */
  predicate Le(a: string, b: string)
  {
    if a == [] then true
    else if b == [] then false
    else if a[0] != b[0] then a[0] < b[0]
    else Le(a[1..], b[1..])
  }

  lemma {:induction false} LeReflexive(a: string)
    ensures Le(a, a)
  {
    if a != [] { LeReflexive(a[1..]); }
  }

  lemma {:induction false} LeTotal(a: string, b: string)
    ensures Le(a, b) || Le(b, a)
  {
    if a != [] && b != [] && a[0] == b[0] { LeTotal(a[1..], b[1..]); }
  }

  lemma {:induction false} LeAntisymmetric(a: string, b: string)
    requires Le(a, b) && Le(b, a)
    ensures a == b
  {
    if a != [] && b != [] {
      LeAntisymmetric(a[1..], b[1..]);
      assert a == [a[0]] + a[1..] && b == [b[0]] + b[1..];
    }
  }

  lemma {:induction false} LeTransitive(a: string, b: string, c: string)
    requires Le(a, b) && Le(b, c)
    ensures Le(a, c)
  {
    if a != [] && b != [] && c != [] && a[0] == b[0] && b[0] == c[0] {
      LeTransitive(a[1..], b[1..], c[1..]);
    }
  }

  ghost predicate Ascending(s: seq<string>)
  {
    forall i, j :: 0 <= i < j < |s| ==> Le(s[i], s[j])
  }

  ghost predicate StrictlyAscending(s: seq<string>)
  {
    forall i, j :: 0 <= i < j < |s| ==> Le(s[i], s[j]) && s[i] != s[j]
  }

  ghost predicate LowerBound(x: string, s: seq<string>)
  {
    forall z :: z in s ==> Le(x, z)
  }

  lemma ConsAscending(x: string, s: seq<string>)
    requires Ascending(s) && LowerBound(x, s)
    ensures Ascending([x] + s)
  {
    forall i, j | 0 <= i < j < |[x] + s| ensures Le(([x] + s)[i], ([x] + s)[j]) {
      if i == 0 { assert ([x] + s)[j] == s[j - 1]; assert s[j - 1] in s; }
      else { assert ([x] + s)[i] == s[i - 1] && ([x] + s)[j] == s[j - 1]; }
    }
  }

  /** Insertion of one string into an ascending sequence. */
  function Insert(x: string, s: seq<string>): (r: seq<string>)
    requires Ascending(s)
    ensures Ascending(r)
    ensures multiset(r) == multiset(s) + multiset{x}
  {
    if s == [] then [x]
    else if Le(x, s[0]) then
      assert LowerBound(x, s) by {
        forall z | z in s ensures Le(x, z) {
          var k :| 0 <= k < |s| && s[k] == z;
          if k > 0 { LeTransitive(x, s[0], s[k]); }
        }
      }
      ConsAscending(x, s);
      [x] + s
    else
      assert s == [s[0]] + s[1..];
      var t := Insert(x, s[1..]);
      assert LowerBound(s[0], t) by {
        LeTotal(x, s[0]);
        forall z | z in t ensures Le(s[0], z) {
          assert z in multiset(t);
          if z != x {
            assert z in multiset(s[1..]);
            var k :| 0 <= k < |s[1..]| && s[1..][k] == z;
            assert s[k + 1] == z;
          }
        }
      }
      ConsAscending(s[0], t);
      [s[0]] + t
  }

  /** list.sort() on strings, as an insertion sort. */
  function Sort(s: seq<string>): (r: seq<string>)
    ensures Ascending(r)
    ensures multiset(r) == multiset(s)
  {
    if s == [] then []
    else
      assert s == [s[0]] + s[1..];
      Insert(s[0], Sort(s[1..]))
  }

  /** Two ascending sequences with the same non-empty multiset start with
      the same element. */
  lemma SameHead(a: seq<string>, b: seq<string>)
    requires Ascending(a) && Ascending(b)
    requires multiset(a) == multiset(b)
    requires |a| > 0
    ensures |b| > 0 && a[0] == b[0]
  {
    assert a[0] in multiset(b);
    var i :| 0 <= i < |b| && b[i] == a[0];
    assert b[0] in multiset(a);
    var j :| 0 <= j < |a| && a[j] == b[0];
    LeReflexive(a[0]);
    assert Le(b[0], a[0]);
    assert Le(a[0], b[0]);
    LeAntisymmetric(a[0], b[0]);
  }

  /** An ascending sequence is determined by its elements: any two sorts of
      the same multiset agree. */
  lemma {:induction false} SortUnique(a: seq<string>, b: seq<string>)
    requires Ascending(a) && Ascending(b)
    requires multiset(a) == multiset(b)
    ensures a == b
  {
    if a == [] {
      assert |multiset(b)| == 0;
    } else {
      SameHead(a, b);
      assert a == [a[0]] + a[1..];
      assert b == [b[0]] + b[1..];
      assert multiset(a[1..]) == multiset(a) - multiset{a[0]};
      assert multiset(b[1..]) == multiset(b) - multiset{b[0]};
      SortUnique(a[1..], b[1..]);
    }
  }

  /** Some enumeration of a finite set; which one is immaterial once sorted. */
  ghost function Enumerate(s: set<string>): (r: seq<string>)
    ensures multiset(r) == multiset(s)
    decreases |s|
  {
    if s == {} then []
    else
      var x :| x in s;
      var rest := Enumerate(s - {x});
      assert s == (s - {x}) + {x};
      [x] + rest
  }

  /** A sequence with the elements of a set holds each of them once. */
  lemma DistinctFromSet(r: seq<string>, s: set<string>)
    requires multiset(r) == multiset(s)
    ensures forall i, j :: 0 <= i < j < |r| ==> r[i] != r[j]
  {
    forall i, j | 0 <= i < j < |r| ensures r[i] != r[j] {
      var x := r[i];
      assert r == r[..i] + [r[i]] + r[i + 1..j] + [r[j]] + r[j + 1..];
      assert multiset(r)[x] >= 1 + (if r[j] == x then 1 else 0);
      assert multiset(s)[x] <= 1;
    }
  }

  /** The keys of a set in ascending order, each once. */
  ghost function SortedKeys(s: set<string>): (r: seq<string>)
    ensures StrictlyAscending(r)
    ensures forall k :: k in r <==> k in s
    ensures |r| == |s|
    ensures multiset(r) == multiset(s)
  {
    var r := Sort(Enumerate(s));
    DistinctFromSet(r, s);
    assert forall k :: k in r <==> k in multiset(s);
    assert |r| == |multiset(r)| == |multiset(s)| == |s|;
    r
  }
}
