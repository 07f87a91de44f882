/** The `mika list` reply is split into messages of at most ten lines:
    `[fortune_list[i:i + 10] for i in range(0, len(fortune_list), 10)]`. */
module Listing {

  const ChunkSize: nat := 10

  function Min(a: int, b: int): int
  {
    if a <= b then a else b
  }

  /** The comprehension above, with Python's clamping of the slice end. */
  function Chunks<T>(s: seq<T>): seq<seq<T>>
  {
    seq((|s| + ChunkSize - 1) / ChunkSize,
      j requires 0 <= j < (|s| + ChunkSize - 1) / ChunkSize =>
        s[ChunkSize * j .. Min(ChunkSize * j + ChunkSize, |s|)])
  }

  function Flatten<T>(css: seq<seq<T>>): seq<T>
  {
    if css == [] then [] else css[0] + Flatten(css[1..])
  }

  /** A list of more than ten splits into its first ten and the chunks of the
      rest. */
  lemma ChunksStep<T>(s: seq<T>)
    requires |s| > ChunkSize
    ensures Chunks(s) == [s[..ChunkSize]] + Chunks(s[ChunkSize..])
  {
    var c, d := Chunks(s), Chunks(s[ChunkSize..]);
    assert |c| == |d| + 1;
    forall j | 1 <= j < |c|
      ensures c[j] == d[j - 1]
    {
      assert s[ChunkSize..][ChunkSize * (j - 1) .. Min(ChunkSize * (j - 1) + ChunkSize, |s| - ChunkSize)]
        == s[ChunkSize * j .. Min(ChunkSize * j + ChunkSize, |s|)];
    }
    assert c == [c[0]] + c[1..];
  }

  /** Sending the chunks one after another sends every line once, in order. */
  lemma {:induction false} ChunksFlatten<T>(s: seq<T>)
    ensures Flatten(Chunks(s)) == s
    decreases |s|
  {
    if |s| > ChunkSize {
      ChunksStep(s);
      ChunksFlatten(s[ChunkSize..]);
      var c := Chunks(s);
      assert c[1..] == Chunks(s[ChunkSize..]);
      assert s == s[..ChunkSize] + s[ChunkSize..];
    } else if s != [] {
      assert (|s| + ChunkSize - 1) / ChunkSize == 1;
      assert Chunks(s)[0] == s[..|s|] == s;
      assert |Chunks(s)| == 1;
      assert Chunks(s) == [s];
      assert Flatten(Chunks(s)) == s + Flatten([]);
    } else {
      assert Chunks(s) == [];
    }
  }

  /** No chunk is empty or longer than ten, every chunk but the last has
      exactly ten lines, and there are as many chunks as ten-line groups. */
  lemma ChunkSizes<T>(s: seq<T>)
    ensures |Chunks(s)| * ChunkSize >= |s| > (|Chunks(s)| - 1) * ChunkSize
    ensures forall j :: 0 <= j < |Chunks(s)| ==> 0 < |Chunks(s)[j]| <= ChunkSize
    ensures forall j :: 0 <= j < |Chunks(s)| - 1 ==> |Chunks(s)[j]| == ChunkSize
  {
  }
}
