/** The Python list operations the capture adapter relies on, over immutable sequences. */
module Lists {
  import opened Results

  /** Python's `xs.index(x)`: the first position holding `x`. */
  function IndexOf<T(==)>(xs: seq<T>, x: T): (k: nat)
    requires x in xs
    ensures k < |xs| && xs[k] == x
    ensures x !in xs[..k]
  {
    if xs[0] == x then 0
    else
      var k := IndexOf(xs[1..], x);
      assert xs[..k + 1] == [xs[0]] + xs[1..][..k];
      1 + k
  }

  /** The position at which Python's `s.insert(i, x)` places `x`: an index
      past the end appends. */
  function InsertPosition<T>(s: seq<T>, i: nat): (k: nat)
    ensures k <= |s|
    ensures k == i || (k == |s| && |s| < i)
  {
    if i <= |s| then i else |s|
  }

  /** Python's `s.insert(i, x)`. */
  function InsertAt<T>(s: seq<T>, i: nat, x: T): (r: seq<T>)
    ensures |r| == |s| + 1
    ensures r[InsertPosition(s, i)] == x
    ensures r[..InsertPosition(s, i)] == s[..InsertPosition(s, i)]
    ensures r[InsertPosition(s, i) + 1..] == s[InsertPosition(s, i)..]
    ensures multiset(r) == multiset(s) + multiset{x}
  {
    var k := InsertPosition(s, i);
    assert s == s[..k] + s[k..];
    s[..k] + [x] + s[k..]
  }

  /** Python's `s.remove(x)`: drops the first element equal to `x`; `None`
      stands for the ValueError raised when there is none. */
  function RemoveFirst<T(==)>(s: seq<T>, x: T): (r: Option<seq<T>>)
    ensures r.None? <==> x !in s
    ensures r.Some? ==> r.value == s[..IndexOf(s, x)] + s[IndexOf(s, x) + 1..]
    ensures r.Some? ==> multiset(r.value) == multiset(s) - multiset{x}
  {
    if |s| == 0 then None
    else if s[0] == x then
      assert s == [s[0]] + s[1..];
      Some(s[1..])
    else
      match RemoveFirst(s[1..], x)
      case None => None
      case Some(t) =>
        var k := IndexOf(s[1..], x);
        assert IndexOf(s, x) == k + 1;
        DropAfterHead(s, k, t);
        RemoveAfterHeadMultiset(s, x, t);
        Some([s[0]] + t)
  }

  /** Dropping position `k` of the tail, with the head kept in front, is
      dropping position `k + 1` of the whole. */
  lemma DropAfterHead<T>(s: seq<T>, k: nat, t: seq<T>)
    requires k + 1 < |s|
    requires t == s[1..][..k] + s[1..][k + 1..]
    ensures [s[0]] + t == s[..k + 1] + s[k + 2..]
  {
    assert s[..k + 1] == [s[0]] + s[1..][..k];
    assert s[k + 2..] == s[1..][k + 1..];
  }

  /** Removing `x` from the tail, with a different head kept in front, is
      removing `x` from the whole, counted as multisets. */
  lemma RemoveAfterHeadMultiset<T>(s: seq<T>, x: T, t: seq<T>)
    requires |s| > 0 && s[0] != x
    requires multiset(t) == multiset(s[1..]) - multiset{x}
    ensures multiset([s[0]] + t) == multiset(s) - multiset{x}
  {
    assert s == [s[0]] + s[1..];
    assert multiset(s) == multiset{s[0]} + multiset(s[1..]);
  }

  /** A non-empty prefix splits into its head and the rest. */
  lemma SplitHead<T>(a: seq<T>, b: seq<T>)
    requires |a| > 0
    ensures a + b == [a[0]] + (a[1..] + b)
  {
    assert a == [a[0]] + a[1..];
  }

  /** Removing the first `x` from `a + [x] + b` gives back `a + b` when `a` holds no `x`. */
  lemma {:induction false} RemoveFirstAfterPrefix<T>(a: seq<T>, x: T, b: seq<T>)
    requires x !in a
    ensures RemoveFirst(a + [x] + b, x) == Some(a + b)
  {
    var s := a + [x] + b;
    if |a| == 0 {
      assert s == [x] + b;
      assert s[0] == x && s[1..] == b;
    } else {
      var tail := a[1..] + [x] + b;
      assert s == [a[0]] + tail;
      assert s[0] == a[0] && s[0] != x;
      assert s[1..] == tail;
      RemoveFirstAfterPrefix(a[1..], x, b);
      assert RemoveFirst(tail, x) == Some(a[1..] + b);
      SplitHead(a, b);
    }
  }

  /** `remove` undoes `insert` of an element the list did not hold before. */
  lemma RemoveUndoesInsert<T>(s: seq<T>, i: nat, x: T)
    requires x !in s
    ensures RemoveFirst(InsertAt(s, i, x), x) == Some(s)
  {
    var k := InsertPosition(s, i);
    var front, back := s[..k], s[k..];
    var r := front + [x] + back;
    assert x !in front by {
      assert forall j :: 0 <= j < |front| ==> front[j] == s[j];
    }
    assert InsertAt(s, i, x) == r;
    assert front + back == s;
    RemoveFirstAfterPrefix(front, x, back);
  }
}
