/** `chunk_list` of azext_edge/edge/util/common.py: greedy packing under a length and a size limit. */
module Chunking {

  /** The limits in force: items per chunk, and kilobytes of serialized chunk. */
  datatype Limits = Limits(chunkLen: int, kilobytes: int)

  /** Length of `json.dumps(chunk)`: brackets, the items' own texts, and ", " between them. */
  function Serialized<T>(chunk: seq<T>, bytes: T -> nat): nat {
    2 + ItemBytes(chunk, bytes) + if chunk == [] then 0 else 2 * (|chunk| - 1)
  }

  function ItemBytes<T>(chunk: seq<T>, bytes: T -> nat): nat {
    if chunk == [] then 0 else bytes(chunk[0]) + ItemBytes(chunk[1..], bytes)
  }

  /** Bytes over 1024 at most the limit in kilobytes, and no more than `chunkLen` items. */
  predicate Fits<T>(chunk: seq<T>, bytes: T -> nat, limits: Limits) {
    |chunk| <= limits.chunkLen && Serialized(chunk, bytes) <= limits.kilobytes * 1024
  }

  function Flatten<T>(chunks: seq<seq<T>>): seq<T> {
    if chunks == [] then [] else chunks[0] + Flatten(chunks[1..])
  }

  // ---------- the algorithm ----------

  /** What the loop still appends, with `current` in hand. */
  function Pack<T>(current: seq<T>, rest: seq<T>, bytes: T -> nat, limits: Limits): seq<seq<T>>
    decreases |rest|
  {
    if rest == [] then (if current == [] then [] else [current])
    else if Fits(current + [rest[0]], bytes, limits) then Pack(current + [rest[0]], rest[1..], bytes, limits)
    else [current] + Pack([rest[0]], rest[1..], bytes, limits)
  }

  method ChunkList<T>(data: seq<T>, bytes: T -> nat, chunkLen: int, dataSize: int, megabytes: bool)
    returns (result: seq<seq<T>>)
    ensures result == Pack([], data, bytes, Limits(chunkLen, if megabytes then dataSize * 1024 else dataSize))
  {
    var size := dataSize;
    if megabytes {
      size := size * 1024;
    }
    ghost var limits := Limits(chunkLen, size);
    result := [];
    var current: seq<T> := [];
    for i := 0 to |data|
      invariant result + Pack(current, data[i..], bytes, limits) == Pack([], data, bytes, limits)
    {
      ghost var before := current;
      var item := data[i];
      assert data[i..][0] == item && data[i..][1..] == data[i + 1..];
      current := current + [item];
      if |current| > chunkLen || Serialized(current, bytes) > size * 1024 {
        current := current[..|current| - 1];
        assert current == before;
        result := result + [current];
        current := [item];
      }
    }
    if current != [] {
      result := result + [current];
    }
  }

  // ---------- conservation and shape ----------

  lemma {:induction false} FlattenCons<T>(c: seq<T>, cs: seq<seq<T>>)
    ensures Flatten([c] + cs) == c + Flatten(cs)
  {
    assert ([c] + cs)[1..] == cs;
  }

  /** Nothing is lost, duplicated or reordered. */
  lemma {:induction false} PackConserves<T>(current: seq<T>, rest: seq<T>, bytes: T -> nat, limits: Limits)
    ensures Flatten(Pack(current, rest, bytes, limits)) == current + rest
    decreases |rest|
  {
    if rest == [] {
      FlattenCons(current, []);
    } else if Fits(current + [rest[0]], bytes, limits) {
      PackConserves(current + [rest[0]], rest[1..], bytes, limits);
      assert current + [rest[0]] + rest[1..] == current + rest;
    } else {
      FlattenCons(current, Pack([rest[0]], rest[1..], bytes, limits));
      PackConserves([rest[0]], rest[1..], bytes, limits);
      assert current + ([rest[0]] + rest[1..]) == current + rest;
    }
  }

  /** Within the limits, or a single item that cannot be split. */
  predicate Acceptable<T>(chunk: seq<T>, bytes: T -> nat, limits: Limits) {
    |chunk| == 1 || Fits(chunk, bytes, limits)
  }

  lemma {:induction false} PackAcceptable<T>(current: seq<T>, rest: seq<T>, bytes: T -> nat, limits: Limits)
    requires current != [] && Acceptable(current, bytes, limits)
    ensures forall c | c in Pack(current, rest, bytes, limits) :: c != [] && Acceptable(c, bytes, limits)
    decreases |rest|
  {
    if rest != [] {
      if Fits(current + [rest[0]], bytes, limits) {
        PackAcceptable(current + [rest[0]], rest[1..], bytes, limits);
      } else {
        PackAcceptable([rest[0]], rest[1..], bytes, limits);
      }
    }
  }

  /** Every chunk keeps the limits or is a single item; the only possible empty chunk is the
      first, there exactly when the first item alone breaks a limit. */
  lemma {:induction false} ChunksAcceptable<T>(data: seq<T>, bytes: T -> nat, limits: Limits)
    ensures var chunks := Pack([], data, bytes, limits);
            && Flatten(chunks) == data
            && (forall i | 0 <= i < |chunks| ::
                  if chunks[i] == [] then i == 0 else Acceptable(chunks[i], bytes, limits))
            && ((chunks != [] && chunks[0] == []) <==> (data != [] && !Fits([data[0]], bytes, limits)))
  {
    PackConserves([], data, bytes, limits);
    var chunks := Pack([], data, bytes, limits);
    if data != [] {
      var item, rest := data[0], data[1..];
      PackAcceptable([item], rest, bytes, limits);
      PackNonEmpty([item], rest, bytes, limits);
      var tail := Pack([item], rest, bytes, limits);
      assert [] + [item] == [item];
      assert chunks == if Fits([item], bytes, limits) then tail else [[]] + tail;
      forall i | 0 <= i < |chunks| ensures if chunks[i] == [] then i == 0 else Acceptable(chunks[i], bytes, limits) {
        if Fits([item], bytes, limits) {
          assert chunks[i] in tail;
        } else if i > 0 {
          assert chunks[i] == tail[i - 1] && tail[i - 1] in tail;
        }
      }
      assert tail[0] in tail;
    }
  }

  lemma {:induction false} PackNonEmpty<T>(current: seq<T>, rest: seq<T>, bytes: T -> nat, limits: Limits)
    requires current != []
    ensures Pack(current, rest, bytes, limits) != []
    decreases |rest|
  {
    if rest != [] && Fits(current + [rest[0]], bytes, limits) {
      PackNonEmpty(current + [rest[0]], rest[1..], bytes, limits);
    }
  }

  // ---------- the limits, read off the texts ----------

  /** `json.dumps(chunk)`, given the text of each item; it is ASCII, one byte a character. */
  function Dumped<T>(chunk: seq<T>, text: T -> string): string {
    "[" + Listed(chunk, text) + "]"
  }

  function Listed<T>(chunk: seq<T>, text: T -> string): string {
    if chunk == [] then ""
    else if |chunk| == 1 then text(chunk[0])
    else text(chunk[0]) + ", " + Listed(chunk[1..], text)
  }

  lemma {:induction false} ListedLength<T>(chunk: seq<T>, text: T -> string, bytes: T -> nat)
    requires forall x :: bytes(x) == |text(x)|
    ensures |Listed(chunk, text)| == ItemBytes(chunk, bytes) + if chunk == [] then 0 else 2 * (|chunk| - 1)
  {
    if chunk != [] {
      ListedLength(chunk[1..], text, bytes);
      if |chunk| == 1 { assert chunk[1..] == []; }
    }
  }

  /** Main theorem: a chunk keeps the limits exactly when it has at most `chunkLen` items and its text at most
      1024 bytes for each kilobyte. */
  lemma FitsIff<T>(chunk: seq<T>, text: T -> string, bytes: T -> nat, limits: Limits)
    requires forall x :: bytes(x) == |text(x)|
    ensures Fits(chunk, bytes, limits)
            <==> |chunk| <= limits.chunkLen && |Dumped(chunk, text)| <= 1024 * limits.kilobytes
  {
    ListedLength(chunk, text, bytes);
  }

  /** The item that starts a chunk would have broken a limit at the end of the chunk before. */
  ghost predicate Greedy<T>(chunks: seq<seq<T>>, bytes: T -> nat, limits: Limits) {
    forall i, j | 0 <= i < j < |chunks| && j == i + 1 :: Apart(chunks[i], chunks[j], bytes, limits)
  }

  predicate Apart<T>(before: seq<T>, after: seq<T>, bytes: T -> nat, limits: Limits) {
    after != [] && !Fits(before + [after[0]], bytes, limits)
  }

  lemma {:induction false} PackFirst<T>(current: seq<T>, rest: seq<T>, bytes: T -> nat, limits: Limits)
    requires current != []
    ensures Pack(current, rest, bytes, limits) != [] && current <= Pack(current, rest, bytes, limits)[0]
    decreases |rest|
  {
    if rest != [] && Fits(current + [rest[0]], bytes, limits) {
      PackFirst(current + [rest[0]], rest[1..], bytes, limits);
    }
  }

  lemma GreedyCons<T>(current: seq<T>, item: T, tail: seq<seq<T>>, bytes: T -> nat, limits: Limits)
    requires tail != [] && tail[0] != [] && tail[0][0] == item && Greedy(tail, bytes, limits)
    requires !Fits(current + [item], bytes, limits)
    ensures Greedy([current] + tail, bytes, limits)
  {
    var chunks := [current] + tail;
    forall i, j | 0 <= i < j < |chunks| && j == i + 1 ensures Apart(chunks[i], chunks[j], bytes, limits) {
      assert chunks[j] == tail[i];
      if i > 0 { assert chunks[i] == tail[i - 1]; } else { assert chunks[i] == current; }
    }
  }

  lemma {:induction false} PackGreedy<T>(current: seq<T>, rest: seq<T>, bytes: T -> nat, limits: Limits)
    ensures Greedy(Pack(current, rest, bytes, limits), bytes, limits)
    decreases |rest|
  {
    if rest != [] {
      if Fits(current + [rest[0]], bytes, limits) {
        PackGreedy(current + [rest[0]], rest[1..], bytes, limits);
      } else {
        PackFirst([rest[0]], rest[1..], bytes, limits);
        PackGreedy([rest[0]], rest[1..], bytes, limits);
        GreedyCons(current, rest[0], Pack([rest[0]], rest[1..], bytes, limits), bytes, limits);
      }
    }
  }

  /** Main theorem: what comes back, in the terms of the call. Every chunk of more than one item has at most
      `chunkLen` items and at most the given kilobytes or megabytes of text, and no item could have moved to
      the chunk before its own. */
  lemma ChunksWithin<T>(
    data: seq<T>, text: T -> string, bytes: T -> nat, chunkLen: int, dataSize: int, megabytes: bool)
    requires forall x :: bytes(x) == |text(x)|
    ensures var chunks := Pack([], data, bytes, Limits(chunkLen, if megabytes then dataSize * 1024 else dataSize));
            var most := if megabytes then 1_048_576 * dataSize else 1024 * dataSize;
            && (forall c | c in chunks && |c| > 1 :: |c| <= chunkLen && |Dumped(c, text)| <= most)
            && (forall i, j | 0 <= i < j < |chunks| && j == i + 1 ::
                  chunks[j] != [] && Exceeds(chunks[i] + [chunks[j][0]], text, chunkLen, most))
  {
    var limits := Limits(chunkLen, if megabytes then dataSize * 1024 else dataSize);
    var chunks := Pack([], data, bytes, limits);
    ChunksAcceptable(data, bytes, limits);
    PackGreedy([], data, bytes, limits);
    var most := if megabytes then 1_048_576 * dataSize else 1024 * dataSize;
    forall c | c in chunks && |c| > 1 ensures |c| <= chunkLen && |Dumped(c, text)| <= most {
      var i :| 0 <= i < |chunks| && chunks[i] == c;
      FitsIff(c, text, bytes, limits);
    }
    forall i, j | 0 <= i < j < |chunks| && j == i + 1
      ensures chunks[j] != [] && Exceeds(chunks[i] + [chunks[j][0]], text, chunkLen, most)
    {
      assert Apart(chunks[i], chunks[j], bytes, limits);
      FitsIff(chunks[i] + [chunks[j][0]], text, bytes, limits);
    }
  }

  predicate Exceeds<T>(chunk: seq<T>, text: T -> string, chunkLen: int, most: int) {
    |chunk| > chunkLen || |Dumped(chunk, text)| > most
  }

  // ---------- optimality ----------

  lemma {:induction false} ItemBytesConcat<T>(a: seq<T>, b: seq<T>, bytes: T -> nat)
    ensures ItemBytes(a + b, bytes) == ItemBytes(a, bytes) + ItemBytes(b, bytes)
  {
    if a == [] {
      assert a + b == b;
    } else {
      assert (a + b)[1..] == a[1..] + b;
      ItemBytesConcat(a[1..], b, bytes);
    }
  }

  /** Any part of a chunk within the limits is within the limits. */
  lemma FitsPart<T>(a: seq<T>, b: seq<T>, c: seq<T>, bytes: T -> nat, limits: Limits)
    requires Fits(a + b + c, bytes, limits)
    ensures Fits(b, bytes, limits)
  {
    ItemBytesConcat(a + b, c, bytes);
    ItemBytesConcat(a, b, bytes);
  }

  /** Splits into consecutive chunks that all keep the limits. */
  ghost predicate Legal<T>(chunks: seq<seq<T>>, bytes: T -> nat, limits: Limits) {
    forall c | c in chunks :: Fits(c, bytes, limits)
  }

  /** Greedy packing of `current + rest` is no longer than any legal split that ends with it. */
  lemma {:induction false} PackShortest<T>(current: seq<T>, rest: seq<T>, before: seq<T>, chunks: seq<seq<T>>,
                                           bytes: T -> nat, limits: Limits)
    requires current != [] && Legal(chunks, bytes, limits)
    requires Flatten(chunks) == before + (current + rest)
    ensures |Pack(current, rest, bytes, limits)| <= |chunks|
    decreases |rest|
  {
    if rest != [] {
      var item, more := rest[0], rest[1..];
      var longer := current + [item];
      assert longer + more == current + rest;
      if Fits(longer, bytes, limits) {
        PackShortest(longer, more, before, chunks, bytes, limits);
      } else {
        var first, others := chunks[0], chunks[1..];
        assert forall c | c in others :: c in chunks;
        var whole := before + longer + more;
        assert Flatten(chunks) == whole && first <= whole;
        if |first| >= |before| + |longer| {
          var tail := first[|before| + |longer|..];
          assert whole[..|before| + |longer|] == before + longer;
          assert first == before + longer + tail;
          assert first in chunks;
          FitsPart(before, longer, tail, bytes, limits);
        }
        var left := (before + current)[|first|..];
        assert Flatten(others) == whole[|first|..] == left + ([item] + more);
        PackShortest([item], more, left, others, bytes, limits);
      }
    }
  }

  lemma {:induction false} PackLegal<T>(current: seq<T>, rest: seq<T>, bytes: T -> nat, limits: Limits)
    requires Fits(current, bytes, limits) && forall x | x in rest :: Fits([x], bytes, limits)
    ensures Legal(Pack(current, rest, bytes, limits), bytes, limits)
    decreases |rest|
  {
    if rest != [] {
      var item, more := rest[0], rest[1..];
      assert item in rest && forall x | x in more :: x in rest;
      if Fits(current + [item], bytes, limits) {
        PackLegal(current + [item], more, bytes, limits);
      } else {
        PackLegal([item], more, bytes, limits);
      }
    }
  }

  lemma {:induction false} PackStart<T>(data: seq<T>, bytes: T -> nat, limits: Limits)
    requires data != [] && forall x | x in data :: Fits([x], bytes, limits)
    ensures Pack([], data, bytes, limits) == Pack([data[0]], data[1..], bytes, limits)
    ensures Fits([data[0]], bytes, limits) && forall x | x in data[1..] :: Fits([x], bytes, limits)
  {
    assert data[0] in data && forall x | x in data[1..] :: x in data;
    assert [] + [data[0]] == [data[0]];
  }

  /** Main theorem: when every item fits alone the chunks keep the limits, and no consecutive split
      that keeps them uses fewer chunks. */
  lemma {:induction false} PackOptimal<T>(data: seq<T>, chunks: seq<seq<T>>, bytes: T -> nat, limits: Limits)
    requires forall x | x in data :: Fits([x], bytes, limits)
    requires Legal(chunks, bytes, limits) && Flatten(chunks) == data
    ensures Legal(Pack([], data, bytes, limits), bytes, limits)
    ensures |Pack([], data, bytes, limits)| <= |chunks|
  {
    if data != [] {
      var first, more := [data[0]], data[1..];
      PackStart(data, bytes, limits);
      assert [] + (first + more) == data;
      PackShortest(first, more, [], chunks, bytes, limits);
      PackLegal(first, more, bytes, limits);
    }
  }
}
