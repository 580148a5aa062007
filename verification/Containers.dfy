/** Misc/Container.h: a list with an internal cursor.

    The list is a sequence and the cursor an index into it.  A list iterator
    that points nowhere (never set, cleared, or copied from another list) is -1,
    and reading demands a live cursor, so every caller is proved never to read
    through a dead one.

    `Cursored` is the value of such a list.  Where the source embeds a list in an
    object it is a field of that object; a list that stands on its own is a
    `Container` object, whose methods are specified by the value's functions. */
module Containers {

  datatype Option<+T> = None | Some(value: T)

  function Without<T>(s: seq<T>, k: nat): (r: seq<T>)
    requires k < |s|
    ensures |r| == |s| - 1
  {
    s[..k] + s[k + 1..]
  }

  datatype Cursored<T> = Cursored(lista: seq<T>, it: int)
  {
    predicate Positioned() {
      0 <= it <= |lista|
    }

    /** `Get` has just returned an element: the one before the cursor. */
    predicate HasLast() {
      0 < it <= |lista|
    }

    function First(): Cursored<T> {
      Cursored(lista, 0)
    }

    /** What `get` returns ... */
    function Peek(): Option<T>
      requires Positioned()
    {
      if it < |lista| then Some(lista[it]) else None
    }

    /** ... and where it leaves the cursor. */
    function Next(): Cursored<T>
      requires Positioned()
    {
      if it < |lista| then Cursored(lista, it + 1) else this
    }

    /** An iterator that stands at the end stays at the end. */
    function Append(x: T): Cursored<T> {
      Cursored(lista + [x], if it == |lista| then it + 1 else it)
    }

    /** Erases the element before the cursor and rewinds. */
    function Del(): Cursored<T>
      requires HasLast()
    {
      Cursored(Without(lista, it - 1), 0)
    }

    function DelFirst(): Cursored<T>
      requires lista != []
    {
      Cursored(lista[1..], 0)
    }

    /** The lists hold pointers: a write through the pointer that the last `get`
        returned changes the element in place. */
    function SetLast(x: T): Cursored<T>
      requires HasLast()
    {
      SetAt(it - 1, x)
    }

    /** The same through a pointer to element `k` kept from earlier. */
    function SetAt(k: nat, x: T): Cursored<T>
      requires k < |lista|
    {
      Cursored(lista[k := x], it)
    }
  }

  class Container<T> {
    var lista: seq<T>
    var it: int

    ghost function Value(): Cursored<T>
      reads this
    {
      Cursored(lista, it)
    }

    ghost predicate Positioned()
      reads this
    {
      Value().Positioned()
    }

    constructor ()
      ensures Value() == Cursored([], -1)
    {
      lista, it := [], -1;
    }

    method Append(x: T)
      modifies this
      ensures Value() == old(Value()).Append(x)
    {
      if it == |lista| {
        it := it + 1;
      }
      lista := lista + [x];
    }

    method First()
      modifies this`it
      ensures Value() == old(Value()).First()
    {
      it := 0;
    }

    method Get() returns (r: Option<T>)
      requires Positioned()
      modifies this`it
      ensures Value() == old(Value()).Next() && r == old(Value()).Peek()
    {
      if it != |lista| {
        r := Some(lista[it]);
        it := it + 1;
      } else {
        r := None;
      }
    }

    method Del()
      requires Value().HasLast()
      modifies this
      ensures Value() == old(Value()).Del()
    {
      it := it - 1;
      lista := lista[..it] + lista[it + 1..];
      it := 0;
    }

    method DelFirst()
      requires lista != []
      modifies this
      ensures Value() == old(Value()).DelFirst()
    {
      lista, it := lista[1..], 0;
    }
  }

  // -- filtering ------------------------------------------------------------

  /** The elements that satisfy `keep`, in order. */
  function Filter<T>(s: seq<T>, keep: T -> bool): seq<T> {
    if s == [] then []
    else if keep(s[0]) then [s[0]] + Filter(s[1..], keep)
    else Filter(s[1..], keep)
  }

  ghost predicate NoDup<T>(s: seq<T>) {
    forall i, j :: 0 <= i < j < |s| ==> s[i] != s[j]
  }

  lemma {:induction false} MultisetWithout<T>(s: seq<T>, k: nat)
    requires k < |s|
    ensures multiset(s) == multiset{s[k]} + multiset(Without(s, k))
  {
    assert s == s[..k] + [s[k]] + s[k + 1..];
  }

  lemma {:induction false} NoDupConcat<T(!new)>(s: seq<T>, t: seq<T>)
    requires NoDup(s) && NoDup(t) && forall x :: x in s ==> x !in t
    ensures NoDup(s + t)
  {
    forall i, j | 0 <= i < j < |s + t|
      ensures (s + t)[i] != (s + t)[j]
    {
      if i < |s| <= j {
        assert s[i] in s && t[j - |s|] in t;
      }
    }
  }

  lemma {:induction false} FilterIn<T(!new)>(s: seq<T>, keep: T -> bool)
    ensures forall x :: x in Filter(s, keep) <==> x in s && keep(x)
  {
    if s != [] {
      FilterIn(s[1..], keep);
    }
  }

  lemma {:induction false} FilterAll<T>(s: seq<T>, keep: T -> bool)
    requires forall i :: 0 <= i < |s| ==> keep(s[i])
    ensures Filter(s, keep) == s
  {
    if s != [] {
      FilterAll(s[1..], keep);
    }
  }

  lemma {:induction false} FilterSplit<T>(s: seq<T>, t: seq<T>, keep: T -> bool)
    ensures Filter(s + t, keep) == Filter(s, keep) + Filter(t, keep)
  {
    if s == [] {
      assert s + t == t;
    } else {
      assert (s + t)[1..] == s[1..] + t;
      FilterSplit(s[1..], t, keep);
    }
  }

  lemma {:induction false} FilterWithout<T>(s: seq<T>, k: nat, keep: T -> bool)
    requires k < |s| && !keep(s[k])
    ensures Filter(Without(s, k), keep) == Filter(s, keep)
  {
    if k == 0 {
      assert Without(s, 0) == s[1..];
    } else {
      assert Without(s, k)[1..] == Without(s[1..], k - 1);
      FilterWithout(s[1..], k - 1, keep);
    }
  }

  /** Erasing the first element that passes takes it off the front of the filtered list. */
  lemma {:induction false} FilterFirst<T>(s: seq<T>, k: nat, keep: T -> bool)
    requires k < |s| && keep(s[k])
    requires forall i :: 0 <= i < k ==> !keep(s[i])
    ensures Filter(s, keep) == [s[k]] + Filter(Without(s, k), keep)
  {
    if k == 0 {
      assert Without(s, 0) == s[1..];
    } else {
      assert Without(s, k)[1..] == Without(s[1..], k - 1);
      FilterFirst(s[1..], k - 1, keep);
    }
  }

  lemma {:induction false} FilterNone<T>(s: seq<T>, keep: T -> bool)
    requires forall i :: 0 <= i < |s| ==> !keep(s[i])
    ensures Filter(s, keep) == []
  {
    if s != [] {
      FilterNone(s[1..], keep);
    }
  }

  lemma {:induction false} FilterNoDup<T(!new)>(s: seq<T>, keep: T -> bool)
    requires NoDup(s)
    ensures NoDup(Filter(s, keep))
  {
    if s != [] {
      FilterNoDup(s[1..], keep);
      FilterIn(s[1..], keep);
    }
  }

  lemma {:induction false} FilterTwice<T(!new)>(s: seq<T>, f: T -> bool, g: T -> bool)
    requires forall x :: x in s && g(x) ==> f(x)
    ensures Filter(Filter(s, f), g) == Filter(s, g)
  {
    if s != [] {
      FilterTwice(s[1..], f, g);
    }
  }

  lemma {:induction false} FilterAgrees<T>(s: seq<T>, f: T -> bool, g: T -> bool)
    requires forall i :: 0 <= i < |s| ==> f(s[i]) == g(s[i])
    ensures Filter(s, f) == Filter(s, g)
  {
    if s != [] {
      FilterAgrees(s[1..], f, g);
    }
  }
}
