/** The transport chunking in `sendDrawing`: the serialised payload is cut into
    consecutive slices of at most 180 characters, each written to the robot in turn;
    a receiver that concatenates the slices in order gets the payload back. */
module Transport {

  /** The largest slice one write carries. */
  const ChunkSize: nat := 180

  function Min(a: int, b: int): (r: int)
    ensures r <= a && r <= b && (r == a || r == b)
  {
    if a <= b then a else b
  }

  /** The slices the loop produces, from the front of the payload on: a first slice of
      at most 180 characters, then the slices of what is left. */
  function Slices(payload: seq<char>): (r: seq<seq<char>>)
    ensures |r| == 0 <==> |payload| == 0
    ensures forall k :: 0 <= k < |r| ==> 1 <= |r[k]| <= ChunkSize
    decreases |payload|
  {
    if |payload| == 0 then []
    else
      var n := Min(ChunkSize, |payload|);
      [payload[..n]] + Slices(payload[n..])
  }

  /** Concatenating the slices in order, as a receiver would to rebuild the payload. */
  function Reassemble(chunks: seq<seq<char>>): (payload: seq<char>)
  {
    if |chunks| == 0 then [] else chunks[0] + Reassemble(chunks[1..])
  }

  /** The chunking loop: `for (i = 0; i < json.length; i += chunkSize)`, taking
      `json.slice(i, i + chunkSize)`, which stops at the end of the payload. */
  method ChunkPayload(json: seq<char>) returns (chunks: seq<seq<char>>)
    ensures chunks == Slices(json)
  {
    chunks := [];
    var i := 0;
    while i < |json|
      invariant 0 <= i
      invariant chunks + Slices(json[Min(i, |json|)..]) == Slices(json)
      decreases |json| - i
    {
      var chunk := json[i..Min(i + ChunkSize, |json|)];
      var rest := json[i..];
      assert rest[..Min(ChunkSize, |rest|)] == chunk;
      assert rest[Min(ChunkSize, |rest|)..] == json[Min(i + ChunkSize, |json|)..];
      assert Slices(rest) == [chunk] + Slices(json[Min(i + ChunkSize, |json|)..]);
      assert chunks + [chunk] + Slices(json[Min(i + ChunkSize, |json|)..]) == chunks + Slices(rest);
      chunks := chunks + [chunk];
      i := i + ChunkSize;
    }
    assert json[|json|..] == [];
  }

  /** Concatenating the slices in order gives the payload back. */
  lemma {:induction false} ReassembleSlices(payload: seq<char>)
    ensures Reassemble(Slices(payload)) == payload
    decreases |payload|
  {
    if |payload| > 0 {
      var n := Min(ChunkSize, |payload|);
      var r := Slices(payload);
      ReassembleSlices(payload[n..]);
      assert r[1..] == Slices(payload[n..]);
      assert payload[..n] + payload[n..] == payload;
    }
  }

  /** There are ceil(len / 180) slices; every slice but the last holds exactly 180
      characters and the last holds between 1 and 180. */
  lemma {:induction false} SliceSizes(payload: seq<char>)
    ensures |Slices(payload)| == (|payload| + ChunkSize - 1) / ChunkSize
    ensures forall k :: 0 <= k < |Slices(payload)| - 1 ==> |Slices(payload)[k]| == ChunkSize
    ensures |payload| > 0 ==> 1 <= |Slices(payload)[|Slices(payload)| - 1]| <= ChunkSize
    decreases |payload|
  {
    if |payload| > 0 {
      var n := Min(ChunkSize, |payload|);
      var r, tail := Slices(payload), Slices(payload[n..]);
      SliceSizes(payload[n..]);
      assert r == [payload[..n]] + tail;
      if |payload| > ChunkSize {
        assert n == ChunkSize && |payload[n..]| == |payload| - ChunkSize;
        assert (|payload| - ChunkSize + ChunkSize - 1) / ChunkSize + 1 == (|payload| + ChunkSize - 1) / ChunkSize;
        forall k | 0 <= k < |r| - 1
          ensures |r[k]| == ChunkSize
        {
          if k > 0 {
            assert r[k] == tail[k - 1];
          }
        }
      } else {
        assert payload[n..] == [];
      }
    }
  }

  /** Slice k is the part of the payload from 180 k up to 180 (k + 1) or the end. */
  lemma {:induction false} SliceAt(payload: seq<char>, k: nat)
    requires k < |Slices(payload)|
    ensures ChunkSize * k < |payload|
    ensures Slices(payload)[k] == payload[ChunkSize * k..Min(ChunkSize * (k + 1), |payload|)]
    decreases k
  {
    var n := Min(ChunkSize, |payload|);
    var rest := payload[n..];
    if k > 0 {
      assert Slices(payload)[k] == Slices(rest)[k - 1];
      SliceAt(rest, k - 1);
      assert n == ChunkSize;
      assert rest[ChunkSize * (k - 1)..Min(ChunkSize * k, |rest|)]
          == payload[ChunkSize * k..Min(ChunkSize * (k + 1), |payload|)];
    }
  }

  /** A 190-character payload goes out as a slice of 180 characters and one of 10. */
  lemma TwoSlices(payload: seq<char>)
    requires |payload| == 190
    ensures |Slices(payload)| == 2
    ensures Slices(payload) == [payload[..180], payload[180..]]
  {
    var rest := payload[180..];
    assert Slices(payload) == [payload[..180]] + Slices(rest);
    assert Slices(rest) == [rest[..10]] + Slices(rest[10..]);
    assert rest[..10] == rest && rest[10..] == [];
  }
}
