/** Go slices: windows into shared backing arrays. Taking a part of a slice copies nothing; append
    writes into the backing array while there is room behind the window and moves to a new array
    otherwise. */
module GoSlices {
  import opened Sums

  /** The capacity reaches to the end of the backing array, as it does for all slices that are not
      cut with an explicit capacity. */
  datatype Slice<T> = Slice(arr: array<T>, off: nat, len: nat) {
    ghost predicate Ok() {
      off + len <= arr.Length
    }

    ghost function View(): (s: seq<T>)
      requires Ok()
      reads arr
      ensures |s| == len
    {
      arr[off..off + len]
    }

    /** `s[:k]`. */
    function Take(k: nat): (r: Slice<T>)
      requires Ok() && k <= len
      ensures r.Ok()
    {
      Slice(arr, off, k)
    }

    /** `s[k:]`. */
    function Drop(k: nat): (r: Slice<T>)
      requires Ok() && k <= len
      ensures r.Ok()
    {
      Slice(arr, off + k, len - k)
    }
  }

  /** The cells right behind `s` are overwritten with `t`, which may overlap them. */
  method AppendInPlace<T>(s: Slice<T>, t: Slice<T>) returns (r: Slice<T>)
    requires s.Ok() && t.Ok() && s.off + s.len + t.len <= s.arr.Length
    modifies s.arr
    ensures r == Slice(s.arr, s.off, s.len + t.len) && r.Ok()
    ensures r.View() == old(s.View()) + old(t.View())
    ensures forall k :: 0 <= k < s.arr.Length && !(s.off + s.len <= k < s.off + s.len + t.len) ==>
              s.arr[k] == old(s.arr[k])
  {
    ghost var front, back := s.View(), t.View();
    var end := s.off + s.len;
    forall k | 0 <= k < t.len {
      s.arr[end + k] := t.arr[t.off + k];
    }
    r := Slice(s.arr, s.off, s.len + t.len);
    forall k | 0 <= k < r.len ensures r.View()[k] == (front + back)[k] {
      if k < s.len {
        assert s.arr[s.off + k] == front[k];
      } else {
        assert s.arr[end + (k - s.len)] == back[k - s.len];
      }
    }
  }

  /** Both slices are copied to a new array, of any sufficient capacity. */
  method AppendGrown<T(0)>(s: Slice<T>, t: Slice<T>) returns (r: Slice<T>)
    requires s.Ok() && t.Ok()
    ensures fresh(r.arr) && r.off == 0 && r.Ok() && r.View() == s.View() + t.View()
  {
    var capacity :| capacity >= s.len + t.len;
    var grown := new T[capacity];
    forall k | 0 <= k < s.len {
      grown[k] := s.arr[s.off + k];
    }
    forall k | 0 <= k < t.len {
      grown[s.len + k] := t.arr[t.off + k];
    }
    r := Slice(grown, 0, s.len + t.len);
    assert r.View()[..s.len] == s.View() && r.View()[s.len..] == t.View();
    assert r.View() == r.View()[..s.len] + r.View()[s.len..];
  }

  /** `append(s, t...)`. The two slices may share an array and even overlap. In place, only the
      cells right behind `s` change; otherwise no existing cell does. */
  method Append<T(0)>(s: Slice<T>, t: Slice<T>) returns (r: Slice<T>)
    requires s.Ok() && t.Ok()
    modifies s.arr
    ensures r.Ok() && r.View() == old(s.View()) + old(t.View())
    ensures s.off + s.len + t.len <= s.arr.Length ==>
              && r == Slice(s.arr, s.off, s.len + t.len)
              && forall k :: 0 <= k < s.arr.Length && !(s.off + s.len <= k < s.off + s.len + t.len) ==>
                   s.arr[k] == old(s.arr[k])
    ensures s.off + s.len + t.len > s.arr.Length ==>
              fresh(r.arr) && r.off == 0 && s.arr[..] == old(s.arr[..])
  {
    if s.off + s.len + t.len <= s.arr.Length {
      r := AppendInPlace(s, t);
    } else {
      r := AppendGrown(s, t);
    }
  }

  /** `append(s[:i], s[i+1:]...)`: the in-place removal of one element. */
  method RemoveAt<T(0)>(s: Slice<T>, i: nat) returns (r: Slice<T>)
    requires s.Ok() && i < s.len
    modifies s.arr
    ensures r == Slice(s.arr, s.off, s.len - 1)
    ensures r.Ok() && r.View() == Without(old(s.View()), i)
  {
    ghost var before := s.View();
    r := Append(s.Take(i), s.Drop(i + 1));
    assert before[..i] == old(s.Take(i).View()) && before[i + 1..] == old(s.Drop(i + 1).View());
  }
}
