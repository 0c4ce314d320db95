/**
 * The byte-range stream filter: wraps a stream of byte chunks, drops the
 * first `skip_bytes` bytes and stops after `limit_bytes` bytes.
 */
module ByteStreams {
  import opened Wrappers
  import opened Utf8
  import opened Errors

  type Bytes = seq<byte>
  type Item = Wrappers.Result<Bytes, Error>

  /** The answer of one `poll_next`. */
  datatype Poll = Pending | Ready(item: Option<Item>)

  /**
   * What the filter yields, read off as `block_on_stream` collects it: the
   * items a consumer sees when it polls until the first `Ready(None)`.
   */
  function Filtered(items: seq<Item>, skip: nat, limit: Option<nat>): seq<Item>
    decreases |items|
  {
    if items == [] then []
    else match items[0]
      case Err(e) => [Err(e)] + Filtered(items[1..], skip, limit)
      case Ok(b) =>
        if |b| <= skip then Filtered(items[1..], skip - |b|, limit)
        else
          var t := b[skip..];
          match limit
          case None => [Ok(t)] + Filtered(items[1..], 0, None)
          case Some(l) =>
            if l == 0 then []
            else if |t| > l then [Ok(t[..l])] + Filtered(items[1..], 0, Some(0))
            else [Ok(t)] + Filtered(items[1..], 0, Some(l - |t|))
  }

  class ByteStream {
    /** The items the wrapped stream has still to yield. */
    var stream: seq<Item>
    var skipBytes: nat
    var limitBytes: Option<nat>

    /** `ByteStream::new`: no skip, no limit. */
    constructor (inner: seq<Item>)
      ensures stream == inner && skipBytes == 0 && limitBytes == None
    {
      stream := inner;
      skipBytes := 0;
      limitBytes := None;
    }

    /** `skip_bytes(n)`: the same stream with skip `n`. */
    method SkipBytes(n: nat)
      modifies this
      ensures skipBytes == n && stream == old(stream) && limitBytes == old(limitBytes)
    {
      skipBytes := n;
    }

    /** `limit_bytes(n)`: the same stream with limit `n`. */
    method LimitBytes(n: nat)
      modifies this
      ensures limitBytes == Some(n) && stream == old(stream) && skipBytes == old(skipBytes)
    {
      limitBytes := Some(n);
    }

    /** `poll_next`: takes one item of the wrapped stream and trims it. */
    method PollNext() returns (p: Poll)
      modifies this
      ensures old(stream) == [] ==>
                p == Ready(None) && stream == [] && skipBytes == old(skipBytes) && limitBytes == old(limitBytes)
      ensures old(stream) != [] ==> stream == old(stream)[1..]
      // an error passes through and leaves both counters alone
      ensures old(stream) != [] && old(stream)[0].Err? ==>
                p == Ready(Some(old(stream)[0])) && skipBytes == old(skipBytes) && limitBytes == old(limitBytes)
      // a chunk within the remaining skip is swallowed whole
      ensures old(stream) != [] && old(stream)[0].Ok? && |old(stream)[0].value| <= old(skipBytes) ==>
                p == Pending && skipBytes == old(skipBytes) - |old(stream)[0].value| && limitBytes == old(limitBytes)
      // a longer chunk loses its first bytes and is cut at the limit
      ensures old(stream) != [] && old(stream)[0].Ok? && |old(stream)[0].value| > old(skipBytes) ==>
                var t := old(stream)[0].value[old(skipBytes)..];
                && skipBytes == 0
                && (old(limitBytes).None? ==> p == Ready(Some(Ok(t))) && limitBytes == None)
                && (old(limitBytes) == Some(0) ==> p == Ready(None) && limitBytes == Some(0))
                && (old(limitBytes).Some? && 0 < old(limitBytes).value < |t| ==>
                      p == Ready(Some(Ok(t[..old(limitBytes).value]))) && limitBytes == Some(0))
                && (old(limitBytes).Some? && 0 < old(limitBytes).value && |t| <= old(limitBytes).value ==>
                      p == Ready(Some(Ok(t))) && limitBytes == Some(old(limitBytes).value - |t|))
      ensures p.Ready? && p.item.Some? && p.item.value.Ok? ==> |p.item.value.value| > 0
      ensures old(stream) != [] ==>
                Filtered(old(stream), old(skipBytes), old(limitBytes)) ==
                (match p
                 case Pending => Filtered(stream, skipBytes, limitBytes)
                 case Ready(None) => []
                 case Ready(Some(x)) => [x] + Filtered(stream, skipBytes, limitBytes))
    {
      if stream == [] {
        return Ready(None);
      }
      var item := stream[0];
      stream := stream[1..];
      match item
      case Err(e) =>
        p := Ready(Some(Err(e)));
      case Ok(bytes) =>
        if |bytes| <= skipBytes {
          skipBytes := skipBytes - |bytes|;
          return Pending;
        }
        var t := bytes[skipBytes..];
        skipBytes := 0;
        match limitBytes
        case None =>
          p := Ready(Some(Ok(t)));
        case Some(l) =>
          if l == 0 {
            p := Ready(None);
          } else if |t| > l {
            limitBytes := Some(0);
            p := Ready(Some(Ok(t[..l])));
          } else {
            limitBytes := Some(l - |t|);
            p := Ready(Some(Ok(t)));
          }
    }

    /**
     * `block_on_stream(..).collect()`: polls until the first `Ready(None)`
     * and collects every item yielded on the way.
     */
    method Collect() returns (out: seq<Item>)
      modifies this
      ensures out == Filtered(old(stream), old(skipBytes), old(limitBytes))
    {
      out := [];
      ghost var whole := Filtered(stream, skipBytes, limitBytes);
      while true
        invariant out + Filtered(stream, skipBytes, limitBytes) == whole
        decreases |stream|
      {
        ghost var before := Filtered(stream, skipBytes, limitBytes);
        ghost var empty := stream == [];
        var p := PollNext();
        assert empty ==> p == Ready(None);
        match p
        case Pending =>
          assert before == Filtered(stream, skipBytes, limitBytes);
        case Ready(None) =>
          assert before == [];
          return;
        case Ready(Some(x)) =>
          assert before == [x] + Filtered(stream, skipBytes, limitBytes);
          out := out + [x];
      }
    }
  }

  /** The filter built as the range handler builds it: `new`, `skip_bytes`, then `limit_bytes` if a limit is given. */
  method Apply(inner: seq<Item>, skip: nat, limit: Option<nat>) returns (out: seq<Item>)
    ensures out == Filtered(inner, skip, limit)
  {
    var s := new ByteStream(inner);
    s.SkipBytes(skip);
    if limit.Some? {
      s.LimitBytes(limit.value);
    }
    out := s.Collect();
  }

  // ---------------------------------------------------------------------
  // Views of a chunk sequence

  /** The bytes of all `Ok` chunks, in order. */
  function OkBytes(items: seq<Item>): Bytes
  {
    if items == [] then []
    else (if items[0].Ok? then items[0].value else []) + OkBytes(items[1..])
  }

  /** The errors, in order. */
  function ErrorsOf(items: seq<Item>): seq<Error>
  {
    if items == [] then []
    else (if items[0].Err? then [items[0].error] else []) + ErrorsOf(items[1..])
  }

  /** The items without the empty `Ok` chunks. */
  function WithoutEmptyChunks(items: seq<Item>): seq<Item>
  {
    if items == [] then []
    else (if items[0] == Ok([]) then [] else [items[0]]) + WithoutEmptyChunks(items[1..])
  }

  /** `bytes` with the first `skip` dropped, then cut to `limit` bytes. */
  function Window(bytes: Bytes, skip: nat, limit: Option<nat>): (w: Bytes)
    ensures limit.Some? ==> |w| <= limit.value
  {
    var d := if skip <= |bytes| then bytes[skip..] else [];
    match limit
    case None => d
    case Some(l) => if l <= |d| then d[..l] else d
  }

  // ---------------------------------------------------------------------
  // Properties of the filter

  /** No skip and no limit: every chunk comes through as it is, except that empty chunks vanish. */
  lemma {:induction false} PassThrough(items: seq<Item>)
    ensures Filtered(items, 0, None) == WithoutEmptyChunks(items)
  {
    if items != [] {
      PassThrough(items[1..]);
    }
  }

  /** With no empty chunk in the input, skip 0 and no limit give back the input exactly. */
  lemma {:induction false} PassThroughExact(items: seq<Item>)
    requires forall k :: 0 <= k < |items| ==> items[k] != Ok([])
    ensures Filtered(items, 0, None) == items
  {
    PassThrough(items);
    NoEmptyChunks(items);
  }

  lemma {:induction false} NoEmptyChunks(items: seq<Item>)
    requires forall k :: 0 <= k < |items| ==> items[k] != Ok([])
    ensures WithoutEmptyChunks(items) == items
  {
    if items != [] {
      NoEmptyChunks(items[1..]);
    }
  }

  /** The bytes that come out are the input's bytes from offset `skip` on, cut to `limit`. */
  lemma {:induction false} BytesAreWindow(items: seq<Item>, skip: nat, limit: Option<nat>)
    ensures OkBytes(Filtered(items, skip, limit)) == Window(OkBytes(items), skip, limit)
    decreases |items|, 1
  {
    if items != [] {
      var rest := items[1..];
      var c := OkBytes(rest);
      match items[0]
      case Err(e) =>
        assert OkBytes(items) == c;
        assert Filtered(items, skip, limit) == [Err(e)] + Filtered(rest, skip, limit);
        BytesAreWindow(rest, skip, limit);
      case Ok(b) =>
        assert OkBytes(items) == b + c;
        if |b| <= skip {
          assert Filtered(items, skip, limit) == Filtered(rest, skip - |b|, limit);
          BytesAreWindow(rest, skip - |b|, limit);
          if skip <= |b + c| {
            assert (b + c)[skip..] == c[skip - |b|..];
          }
        } else {
          LongChunkWindow(items, skip, limit);
        }
    }
  }

  lemma {:induction false} LongChunkWindow(items: seq<Item>, skip: nat, limit: Option<nat>)
    requires items != [] && items[0].Ok? && |items[0].value| > skip
    ensures OkBytes(Filtered(items, skip, limit)) == Window(OkBytes(items), skip, limit)
    decreases |items|, 0
  {
    var rest := items[1..];
    var b := items[0].value;
    var c := OkBytes(rest);
    var t := b[skip..];
    assert OkBytes(items) == b + c;
    assert (b + c)[skip..] == t + c;
    match limit
    case None =>
      assert Filtered(items, skip, limit) == [Ok(t)] + Filtered(rest, 0, None);
      BytesAreWindow(rest, 0, None);
    case Some(l) =>
      if l == 0 {
      } else if |t| > l {
        assert Filtered(items, skip, limit) == [Ok(t[..l])] + Filtered(rest, 0, Some(0));
        BytesAreWindow(rest, 0, Some(0));
        assert (t + c)[..l] == t[..l];
      } else {
        assert Filtered(items, skip, limit) == [Ok(t)] + Filtered(rest, 0, Some(l - |t|));
        BytesAreWindow(rest, 0, Some(l - |t|));
        if l <= |t + c| {
          assert (t + c)[..l] == t + c[..l - |t|];
        }
      }
  }

  /** For a stream of chunks only, the concatenated output is the window of the concatenated input. */
  lemma ConcatenationIsWindow(items: seq<Item>, skip: nat, limit: Option<nat>)
    requires forall k :: 0 <= k < |items| ==> items[k].Ok?
    ensures forall k :: 0 <= k < |Filtered(items, skip, limit)| ==> Filtered(items, skip, limit)[k].Ok?
    ensures OkBytes(Filtered(items, skip, limit)) == Window(OkBytes(items), skip, limit)
  {
    BytesAreWindow(items, skip, limit);
    ErrorsOnlyFromInput(items, skip, limit);
  }

  /** Never more bytes than the limit. */
  lemma AtMostLimit(items: seq<Item>, skip: nat, l: nat)
    ensures |OkBytes(Filtered(items, skip, Some(l)))| <= l
  {
    BytesAreWindow(items, skip, Some(l));
  }

  /** Every chunk that comes out holds at least one byte. */
  lemma {:induction false} ChunksNonEmpty(items: seq<Item>, skip: nat, limit: Option<nat>)
    ensures forall k :: 0 <= k < |Filtered(items, skip, limit)| ==>
              Filtered(items, skip, limit)[k].Ok? ==> |Filtered(items, skip, limit)[k].value| > 0
    decreases |items|
  {
    if items != [] {
      match items[0]
      case Err(e) =>
        ChunksNonEmpty(items[1..], skip, limit);
      case Ok(b) =>
        if |b| <= skip {
          ChunksNonEmpty(items[1..], skip - |b|, limit);
        } else {
          var t := b[skip..];
          match limit
          case None =>
            ChunksNonEmpty(items[1..], 0, None);
          case Some(l) =>
            if l == 0 {
            } else if |t| > l {
              ChunksNonEmpty(items[1..], 0, Some(0));
            } else {
              ChunksNonEmpty(items[1..], 0, Some(l - |t|));
            }
        }
    }
  }

  /**
   * Errors pass through in order: without a limit every error comes out,
   * with one the errors that come out are the input's first ones.
   */
  lemma {:induction false} ErrorsOnlyFromInput(items: seq<Item>, skip: nat, limit: Option<nat>)
    ensures ErrorsOf(Filtered(items, skip, limit)) <= ErrorsOf(items)
    ensures limit.None? ==> ErrorsOf(Filtered(items, skip, limit)) == ErrorsOf(items)
    ensures (forall k :: 0 <= k < |items| ==> items[k].Ok?) ==>
              forall k :: 0 <= k < |Filtered(items, skip, limit)| ==> Filtered(items, skip, limit)[k].Ok?
    decreases |items|
  {
    if items != [] {
      var rest := items[1..];
      match items[0]
      case Err(e) =>
        ErrorsOnlyFromInput(rest, skip, limit);
      case Ok(b) =>
        if |b| <= skip {
          ErrorsOnlyFromInput(rest, skip - |b|, limit);
        } else {
          var t := b[skip..];
          match limit
          case None =>
            ErrorsOnlyFromInput(rest, 0, None);
          case Some(l) =>
            if l == 0 {
            } else if |t| > l {
              ErrorsOnlyFromInput(rest, 0, Some(0));
            } else {
              ErrorsOnlyFromInput(rest, 0, Some(l - |t|));
            }
        }
    }
  }

  /** A skip at or past the end of the bytes yields no chunk at all. */
  lemma SkipPastEnd(items: seq<Item>, skip: nat, limit: Option<nat>)
    requires skip >= |OkBytes(items)|
    ensures forall k :: 0 <= k < |Filtered(items, skip, limit)| ==> Filtered(items, skip, limit)[k].Err?
  {
    BytesAreWindow(items, skip, limit);
    ChunksNonEmpty(items, skip, limit);
    var out := Filtered(items, skip, limit);
    forall k | 0 <= k < |out| ensures out[k].Err? {
      if out[k].Ok? {
        OkBytesHasChunk(out, k);
      }
    }
  }

  /** A limit of zero yields no chunk at all. */
  lemma ZeroLimit(items: seq<Item>, skip: nat)
    ensures forall k :: 0 <= k < |Filtered(items, skip, Some(0))| ==> Filtered(items, skip, Some(0))[k].Err?
  {
    BytesAreWindow(items, skip, Some(0));
    ChunksNonEmpty(items, skip, Some(0));
    var out := Filtered(items, skip, Some(0));
    forall k | 0 <= k < |out| ensures out[k].Err? {
      if out[k].Ok? {
        OkBytesHasChunk(out, k);
      }
    }
  }

  /** The empty stream yields nothing, whatever skip and limit are. */
  lemma EmptyInput(skip: nat, limit: Option<nat>)
    ensures Filtered([], skip, limit) == []
  {
  }

  lemma {:induction false} OkBytesHasChunk(items: seq<Item>, k: nat)
    requires k < |items| && items[k].Ok?
    ensures |OkBytes(items)| >= |items[k].value|
  {
    if k > 0 {
      OkBytesHasChunk(items[1..], k - 1);
    }
  }
}

module ByteStreamExamples {
  import opened Wrappers
  import opened ByteStreams

  const HELLO: Bytes := [0x68, 0x65, 0x6C, 0x6C, 0x6F]
  const WORLD: Bytes := [0x77, 0x6F, 0x72, 0x6C, 0x64]

  const HW: seq<Item> := [Ok(HELLO), Ok(WORLD)]

  /** The expectations of the filter's unit-test table. */
  lemma UnitTestTable()
    ensures Filtered(HW, 0, None) == HW
    ensures Filtered(HW, 2, None) == [Ok(HELLO[2..]), Ok(WORLD)]
    ensures Filtered(HW, 0, Some(6)) == [Ok(HELLO), Ok(WORLD[..1])]
    ensures Filtered(HW, 2, Some(6)) == [Ok(HELLO[2..]), Ok(WORLD[..3])]
    ensures Filtered(HW, 5, None) == [Ok(WORLD)]
    ensures Filtered(HW, 6, None) == [Ok(WORLD[1..])]
    ensures Filtered(HW, 0, Some(3)) == [Ok(HELLO[..3])]
    ensures Filtered(HW, 0, Some(5)) == [Ok(HELLO)]
    ensures Filtered(HW, 0, Some(0)) == []
    ensures Filtered(HW, 100, None) == []
    ensures Filtered(HW, 0, Some(100)) == HW
    ensures Filtered(HW, 100, Some(100)) == []
    ensures Filtered([], 0, None) == [] && Filtered([], 100, None) == []
    ensures Filtered([], 0, Some(100)) == [] && Filtered([], 100, Some(100)) == []
  {
    var w: seq<Item> := [Ok(WORLD)];
    assert HW[1..] == w && w[1..] == [];
    assert Filtered(w, 0, Some(1)) == [Ok(WORLD[..1])];
    assert Filtered(w, 0, Some(3)) == [Ok(WORLD[..3])];
    assert Filtered(w, 95, None) == [];
    assert Filtered(w, 95, Some(100)) == [];
    assert Filtered(w, 0, Some(95)) == w;
    assert Filtered(w, 0, None) == w;
  }
}
