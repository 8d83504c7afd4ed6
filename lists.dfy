/** Small list vocabulary shared by the KenKen model: an optional value (None where the
    program raises an exception), duplicate-freedom, and Python's `list.remove`. */
module Lists {

  datatype Option<T> = None | Some(value: T)

  predicate NoDup<T(==)>(s: seq<T>)
  {
    forall i, j :: 0 <= i < j < |s| ==> s[i] != s[j]
  }

  function Elems<T>(s: seq<T>): set<T>
  {
    set x | x in s
  }

  /** `s.remove(v)`: the list without the first occurrence of `v` (Python raises when `v` is absent). */
  function Remove<T(==)>(s: seq<T>, v: T): (r: seq<T>)
    requires v in s
    ensures |r| == |s| - 1
    ensures forall x :: x in r ==> x in s
    ensures forall x :: x in s && x != v ==> x in r
    ensures NoDup(s) ==> NoDup(r) && v !in r
  {
    if s[0] == v then s[1..]
    else
      var r := [s[0]] + Remove(s[1..], v);
      assert NoDup(s) ==> NoDup(s[1..]) && s[0] !in s[1..];
      r
  }

  /** The position of the first occurrence of `v` (`s.index(v)`). */
  function IndexOf<T(==)>(s: seq<T>, v: T): (i: nat)
    requires v in s
    ensures i < |s| && s[i] == v && v !in s[..i]
  {
    if s[0] == v then 0
    else
      var j := IndexOf(s[1..], v);
      assert s[..j + 1] == [s[0]] + s[1..][..j];
      j + 1
  }

  /** `remove` drops the first occurrence of `v` and keeps everything else in order. */
  lemma {:induction false} RemoveFirst<T>(s: seq<T>, v: T)
    requires v in s
    ensures Remove(s, v) == s[..IndexOf(s, v)] + s[IndexOf(s, v) + 1..]
  {
    if s[0] == v {
      RemoveHead(s, v);
    } else {
      RemoveFirst(s[1..], v);
      RemoveAfterHead(s, v);
    }
  }

  lemma RemoveHead<T>(s: seq<T>, v: T)
    requires s != [] && s[0] == v
    ensures Remove(s, v) == s[..IndexOf(s, v)] + s[IndexOf(s, v) + 1..]
  {
    assert s[..0] == [];
  }

  /** One step of RemoveFirst: from the tail's first occurrence to the whole list's. */
  lemma RemoveAfterHead<T>(s: seq<T>, v: T)
    requires v in s && s[0] != v
    requires Remove(s[1..], v) == s[1..][..IndexOf(s[1..], v)] + s[1..][IndexOf(s[1..], v) + 1..]
    ensures Remove(s, v) == s[..IndexOf(s, v)] + s[IndexOf(s, v) + 1..]
  {
    var t := s[1..];
    var j := IndexOf(t, v);
    assert IndexOf(s, v) == j + 1 by {}
    assert Remove(s, v) == [s[0]] + Remove(t, v) by {}
    DropAfterHead(s, j);
  }

  /** Dropping position j of the tail, then putting the head back, drops position j + 1. */
  lemma DropAfterHead<T>(s: seq<T>, j: nat)
    requires j + 1 < |s|
    ensures [s[0]] + (s[1..][..j] + s[1..][j + 1..]) == s[..j + 1] + s[j + 2..]
  {
    assert s[..j + 1] == [s[0]] + s[1..][..j];
    assert s[j + 2..] == s[1..][j + 1..];
  }

  lemma NoDupConcat<T>(a: seq<T>, b: seq<T>)
    requires NoDup(a) && NoDup(b)
    requires forall x :: x in a ==> x !in b
    ensures NoDup(a + b)
  {
    forall i, j | 0 <= i < j < |a + b|
      ensures (a + b)[i] != (a + b)[j]
    {
      if j >= |a| && i < |a| {
        assert (a + b)[i] in a && (a + b)[j] in b;
      }
    }
  }
}
