/** Go slices: a header over a backing array, with an `append` that writes in place while there is
    spare capacity. Two headers over one array therefore interfere. */
module GoSlices {
  import opened Prelude

  /** The first `len` elements of `data` are the contents; the rest is spare capacity. */
  datatype Slice = Slice(data: array<int>, len: nat)

  ghost predicate WellFormed(s: Slice) {
    s.len <= s.data.Length
  }

  ghost function Contents(s: Slice): seq<int>
    requires WellFormed(s)
    reads s.data
  {
    s.data[..s.len]
  }

  ghost function AllContents(slices: seq<Slice>): (all: seq<seq<int>>)
    requires forall i :: 0 <= i < |slices| ==> WellFormed(slices[i])
    reads set s | s in slices :: s.data
    ensures |all| == |slices|
  {
    if slices == [] then [] else AllContents(slices[..|slices| - 1]) + [Contents(slices[|slices| - 1])]
  }

  lemma {:induction false} ContentsOfEach(slices: seq<Slice>)
    requires forall i :: 0 <= i < |slices| ==> WellFormed(slices[i])
    ensures forall i :: 0 <= i < |slices| ==> AllContents(slices)[i] == Contents(slices[i])
  {
    if slices != [] {
      ContentsOfEach(slices[..|slices| - 1]);
    }
  }

  /** `append(s, x)`. */
  method Append(s: Slice, x: int) returns (r: Slice)
    requires WellFormed(s)
    modifies s.data
    ensures WellFormed(r) && Contents(r) == old(Contents(s)) + [x]
    ensures if s.len < s.data.Length then r.data == s.data else fresh(r.data)
    ensures Contents(s) == old(Contents(s))
    ensures r.len == s.len + 1
  {
    if s.len < s.data.Length {
      s.data[s.len] := x;
      r := Slice(s.data, s.len + 1);
      assert s.data[..s.len] == old(s.data[..s.len]);
      assert r.data[..r.len] == old(s.data[..s.len]) + [x];
    } else {
      var grown := new int[2 * s.len + 1];
      for i := 0 to s.len
        invariant grown[..i] == s.data[..i] && s.data[..s.len] == old(s.data[..s.len])
      {
        grown[i] := s.data[i];
      }
      assert grown[..s.len] == s.data[..s.len];
      grown[s.len] := x;
      assert grown[..s.len] == s.data[..s.len];
      r := Slice(grown, s.len + 1);
      assert r.data[..r.len] == s.data[..s.len] + [x];
      assert s.data[..s.len] == old(s.data[..s.len]);
    }
  }

  /** `append(s, xs...)`, element by element. */
  method AppendAll(s: Slice, xs: seq<int>) returns (r: Slice)
    requires WellFormed(s)
    modifies s.data
    ensures WellFormed(r) && Contents(r) == old(Contents(s)) + xs
    ensures r.data == s.data || fresh(r.data)
  {
    r := s;
    for i := 0 to |xs|
      invariant WellFormed(r) && Contents(r) == old(Contents(s)) + xs[..i]
      invariant r.data == s.data || fresh(r.data)
    {
      r := Append(r, xs[i]);
      assert xs[..i + 1] == xs[..i] + [xs[i]];
    }
    assert xs[..|xs|] == xs;
  }

  /** `append([]T{}, s...)`: the same contents over a new array. */
  method Copy(s: Slice) returns (r: Slice)
    requires WellFormed(s)
    ensures WellFormed(r) && fresh(r.data) && Contents(r) == Contents(s)
  {
    var empty := new int[0];
    ghost var source := Contents(s);
    r := Slice(empty, 0);
    for i := 0 to s.len
      invariant WellFormed(r) && fresh(r.data) && Contents(r) == source[..i]
      invariant Contents(s) == source
    {
      r := Append(r, s.data[i]);
      assert source[..i + 1] == source[..i] + [s.data[i]];
    }
  }

  /** Slices over different arrays, all among `arrays`. */
  ghost predicate Separate(slices: seq<Slice>, arrays: set<object>) {
    && (forall i :: 0 <= i < |slices| ==> WellFormed(slices[i]) && slices[i].data in arrays)
    && forall i, j :: 0 <= i < j < |slices| ==> slices[i].data != slices[j].data
  }

  lemma AllContentsSnoc(slices: seq<Slice>, s: Slice)
    requires WellFormed(s) && forall i :: 0 <= i < |slices| ==> WellFormed(slices[i])
    ensures AllContents(slices + [s]) == AllContents(slices) + [Contents(s)]
  {
    assert (slices + [s])[..|slices|] == slices;
  }

  /** `n` new empty slices. */
  method EmptySlices(n: nat) returns (slices: seq<Slice>, ghost arrays: set<object>)
    ensures |slices| == n && Separate(slices, arrays) && fresh(arrays)
    ensures AllContents(slices) == seq(n, _ => [])
  {
    slices, arrays := [], {};
    for i := 0 to n
      invariant |slices| == i && Separate(slices, arrays) && fresh(arrays)
      invariant AllContents(slices) == seq(i, _ => [])
    {
      var empty := new int[0];
      AllContentsSnoc(slices, Slice(empty, 0));
      slices := slices + [Slice(empty, 0)];
      arrays := arrays + {empty};
    }
  }

  /** A copy, or a new empty slice. */
  method CopyUnless(s: Slice, drop: bool) returns (r: Slice)
    requires WellFormed(s)
    ensures WellFormed(r) && fresh(r.data) && Contents(r) == if drop then [] else Contents(s)
  {
    if drop {
      var empty := new int[0];
      r := Slice(empty, 0);
    } else {
      r := Copy(s);
    }
  }

  lemma SeparateSnoc(slices: seq<Slice>, arrays: set<object>, s: Slice)
    requires Separate(slices, arrays) && WellFormed(s) && s.data !in arrays
    ensures Separate(slices + [s], arrays + {s.data})
    ensures AllContents(slices + [s]) == AllContents(slices) + [Contents(s)]
  {
    AllContentsSnoc(slices, s);
    var all := slices + [s];
    assert forall i :: 0 <= i < |slices| ==> all[i] == slices[i];
  }

  /** Copies of all slices but one, which is left empty. */
  method CopyAllBut(slices: seq<Slice>, dropped: nat) returns (copies: seq<Slice>, ghost arrays: set<object>)
    requires dropped < |slices| && forall i :: 0 <= i < |slices| ==> WellFormed(slices[i])
    ensures |copies| == |slices| && Separate(copies, arrays) && fresh(arrays)
    ensures AllContents(copies) == AllContents(slices)[dropped := []]
  {
    ContentsOfEach(slices);
    ghost var want := AllContents(slices)[dropped := []];
    copies, arrays := [], {};
    for i := 0 to |slices|
      invariant |copies| == i && Separate(copies, arrays) && forall o :: o in arrays ==> fresh(o)
      invariant AllContents(copies) == want[..i]
    {
      var s := CopyUnless(slices[i], i == dropped);
      SeparateSnoc(copies, arrays, s);
      PrefixSnoc(want, i);
      copies := copies + [s];
      arrays := arrays + {s.data};
    }
  }

  /** Why a clone copies: two appends to one slice with spare capacity write the same cell, and the
      first result silently changes to the second. */
  method AppendTwice(s: Slice, x: int, y: int) returns (first: Slice, second: Slice)
    requires WellFormed(s) && s.len < s.data.Length
    modifies s.data
    ensures WellFormed(first) && Contents(first) == old(Contents(s)) + [y]
    ensures WellFormed(second) && Contents(second) == old(Contents(s)) + [y]
  {
    first := Append(s, x);
    second := Append(s, y);
  }
}
