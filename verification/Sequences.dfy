/** Definitions shared by the component models: optional values and concatenation of a sequence of sequences. */
module Sequences {

  /** An optional value; `None` also stands for an exception that the caller lets through with `:-`. */
  datatype Option<+T> = None | Some(value: T) {
    predicate IsFailure() {
      None?
    }

    function PropagateFailure<U>(): Option<U>
      requires None?
    {
      None
    }

    function Extract(): T
      requires Some?
    {
      value
    }
  }

  /** The concatenation of all elements of `ss`, in order. */
  function Flat<T>(ss: seq<seq<T>>): seq<T> {
    if ss == [] then [] else Flat(ss[..|ss| - 1]) + ss[|ss| - 1]
  }

  lemma FlatSnoc<T>(ss: seq<seq<T>>, s: seq<T>)
    ensures Flat(ss + [s]) == Flat(ss) + s
  {
    assert (ss + [s])[..|ss|] == ss;
  }

  lemma {:induction false} FlatConcat<T>(a: seq<seq<T>>, b: seq<seq<T>>)
    ensures Flat(a + b) == Flat(a) + Flat(b)
  {
    if b == [] {
      assert a + b == a;
    } else {
      var front, last := b[..|b| - 1], b[|b| - 1];
      assert a + b == (a + front) + [last];
      FlatSnoc(a + front, last);
      FlatConcat(a, front);
    }
  }

  /** Where element `j` begins in the concatenation. */
  function Before<T>(ss: seq<seq<T>>, j: nat): nat
    requires j <= |ss|
  {
    if j == 0 then 0 else Before(ss, j - 1) + |ss[j - 1]|
  }

  lemma {:induction false} BeforeFront<T>(ss: seq<seq<T>>, n: nat, j: nat)
    requires j <= n <= |ss|
    ensures Before(ss[..n], j) == Before(ss, j)
  {
    if j > 0 {
      BeforeFront(ss, n, j - 1);
    }
  }

  /** Every element stands in the concatenation in its place, and there is nothing else. */
  lemma {:induction false} FlatAt<T>(ss: seq<seq<T>>, j: nat)
    requires j < |ss|
    ensures |Flat(ss)| == Before(ss, |ss|) && Before(ss, j) + |ss[j]| <= |Flat(ss)|
    ensures Flat(ss)[Before(ss, j)..Before(ss, j) + |ss[j]|] == ss[j]
  {
    var n := |ss| - 1;
    BeforeFront(ss, n, n);
    if j < n {
      FlatAt(ss[..n], j);
      BeforeFront(ss, n, j);
      assert Flat(ss)[..|Flat(ss[..n])|] == Flat(ss[..n]);
    } else if n > 0 {
      FlatAt(ss[..n], 0);
    }
  }

  lemma PrefixSnoc<T>(s: seq<T>, i: nat)
    requires i < |s|
    ensures s[..i + 1] == s[..i] + [s[i]]
  {
  }

  lemma Assoc<T>(a: seq<T>, b: seq<T>, c: seq<T>)
    ensures (a + b) + c == a + (b + c)
  {
  }

  lemma FlatSingle<T>(s: seq<T>)
    ensures Flat([s]) == s
  {
    FlatSnoc<T>([], s);
  }

  /** How often `x` occurs in `s`. */
  function Count<T(==)>(s: seq<T>, x: T): nat {
    if s == [] then 0 else Count(s[..|s| - 1], x) + (if s[|s| - 1] == x then 1 else 0)
  }

  lemma CountSnoc<T>(s: seq<T>, x: T, y: T)
    ensures Count(s + [x], y) == Count(s, y) + (if x == y then 1 else 0)
  {
    assert (s + [x])[..|s|] == s;
  }

  lemma {:induction false} CountPositive<T>(s: seq<T>, x: T)
    ensures Count(s, x) > 0 <==> x in s
  {
    if s != [] {
      CountPositive(s[..|s| - 1], x);
      assert s == s[..|s| - 1] + [s[|s| - 1]];
    }
  }

  lemma {:induction false} CountConcat<T>(a: seq<T>, b: seq<T>, x: T)
    ensures Count(a + b, x) == Count(a, x) + Count(b, x)
  {
    if b == [] {
      assert a + b == a;
    } else {
      assert (a + b)[..|a + b| - 1] == a + b[..|b| - 1];
      CountConcat(a, b[..|b| - 1], x);
    }
  }
}
