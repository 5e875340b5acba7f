/**
 * splitSlice: cutting an ordered list into consecutive chunks of at most
 * max items. utils.go reads max from a package variable (100 unless a test
 * lowers it); the copy in textmagic.go hard-codes 100. Both are this one
 * function of an explicit positive bound.
 */
module Batcher {

  /** The provider's per-call limit on identifiers, used by every batched command. */
  const MaxInSlice: nat := 100

  /** The chunks splitSlice returns: full chunks of max items, then the remainder if any. */
  function Chunks<T>(s: seq<T>, max: nat): seq<seq<T>>
    requires max > 0
    decreases |s|
  {
    if |s| <= max then (if s == [] then [] else [s])
    else [s[..max]] + Chunks(s[max..], max)
  }

  /** The concatenation of a list of lists, in order. */
  function Flatten<T>(ss: seq<seq<T>>): seq<T>
  {
    if ss == [] then [] else ss[0] + Flatten(ss[1..])
  }

  lemma {:induction false} FlattenAppend<T>(ss: seq<seq<T>>, x: seq<T>)
    ensures Flatten(ss + [x]) == Flatten(ss) + x
  {
    if ss != [] {
      assert (ss + [x])[1..] == ss[1..] + [x];
      FlattenAppend(ss[1..], x);
    } else {
      assert [x][1..] == [];
    }
  }

  /** Concatenating the chunks in order gives back the input: nothing lost, duplicated or moved. */
  lemma {:induction false} ChunksConcat<T>(s: seq<T>, max: nat)
    requires max > 0
    ensures Flatten(Chunks(s, max)) == s
    decreases |s|
  {
    if |s| > max {
      var r := Chunks(s, max);
      assert r[1..] == Chunks(s[max..], max);
      ChunksConcat(s[max..], max);
      assert s == s[..max] + s[max..];
    } else if s != [] {
      assert Flatten([s]) == s + Flatten([]);
    }
  }

  /**
   * Every chunk holds between 1 and max items, all but the last exactly max,
   * and there are ceil(|s| / max) of them, that is, the fewest max-sized
   * chunks that hold |s| items (none for an empty list).
   */
  lemma {:induction false} ChunksBounds<T>(s: seq<T>, max: nat)
    requires max > 0
    ensures var r := Chunks(s, max);
            && (forall i :: 0 <= i < |r| ==> 1 <= |r[i]| <= max)
            && (forall i :: 0 <= i < |r| - 1 ==> |r[i]| == max)
            && (|r| - 1) * max < |s| <= |r| * max
            && (|r| == 0 <==> s == [])
    decreases |s|
  {
    var r := Chunks(s, max);
    if |s| > max {
      var t := s[max..];
      ChunksBounds(t, max);
      assert r == [s[..max]] + Chunks(t, max);
      var k := |Chunks(t, max)|;
      assert |r| * max == k * max + max && (|r| - 1) * max == (k - 1) * max + max;
    }
  }

  /** With the limit of 100, 250 identifiers go out as three batches of 100, 100 and 50. */
  lemma TwoHundredFiftyIds<T>(s: seq<T>)
    requires |s| == 250
    ensures var r := Chunks(s, MaxInSlice);
            |r| == 3 && r[0] == s[..100] && r[1] == s[100..200] && r[2] == s[200..]
  {
    var r := Chunks(s, MaxInSlice);
    var t := s[100..];
    assert r == [s[..100]] + Chunks(t, 100);
    assert Chunks(t, 100) == [t[..100]] + Chunks(t[100..], 100);
    assert t[..100] == s[100..200] && t[100..] == s[200..];
  }

  /** splitSlice: repeatedly takes the first max items while more than max remain. */
  method SplitSlice<T>(slice: seq<T>, max: nat) returns (toRet: seq<seq<T>>)
    requires max > 0
    ensures toRet == Chunks(slice, max)
    ensures Flatten(toRet) == slice
    ensures forall i :: 0 <= i < |toRet| ==> 1 <= |toRet[i]| <= max
  {
    toRet := [];
    var rest := slice;
    while |rest| > max
      invariant toRet + Chunks(rest, max) == Chunks(slice, max)
      decreases |rest|
    {
      toRet := toRet + [rest[..max]];
      rest := rest[max..];
    }
    if |rest| > 0 {
      toRet := toRet + [rest];
    }
    ChunksConcat(slice, max);
    ChunksBounds(slice, max);
  }
}
