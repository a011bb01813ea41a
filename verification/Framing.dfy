/** Grouping the messages of a stream into frames, with the stream itself unchanged. */
module Framing {
  import opened Base

  /** The size at which held messages go out together. */
  const BATCH_BYTES: nat := 4 * 1024

  function TotalLength<T>(messages: seq<T>, len: T -> nat): nat {
    if messages == [] then 0 else TotalLength(messages[..|messages| - 1], len) + len(messages[|messages| - 1])
  }

  class FrameBatch<T> {
    const len: T -> nat
    var pending: seq<T>
    var bytes: nat

    ghost predicate Valid()
      reads this
    {
      bytes == TotalLength(pending, len) && bytes < BATCH_BYTES
    }

    constructor (len: T -> nat)
      ensures Valid() && pending == [] && this.len == len
    {
      this.len := len;
      pending := [];
      bytes := 0;
    }

    /** Take `message` in, and hand over the whole frame if that fills it. */
    method Push(message: T) returns (ready: Option<seq<T>>)
      requires Valid()
      modifies this
      ensures Valid()
      ensures ready.Some? <==> TotalLength(old(pending) + [message], len) >= BATCH_BYTES
      ensures ready.Some? ==> ready.value == old(pending) + [message] && pending == []
      ensures ready.None? ==> pending == old(pending) + [message]
    {
      assert (pending + [message])[..|pending|] == pending;
      bytes := bytes + len(message);
      pending := pending + [message];
      if bytes >= BATCH_BYTES {
        ready := Some(pending);
        pending, bytes := [], 0;
      } else {
        ready := None;
      }
    }

    method Flush() returns (held: seq<T>)
      requires Valid()
      modifies this
      ensures Valid() && held == old(pending) && pending == []
    {
      held := pending;
      pending, bytes := [], 0;
    }
  }

  /** The stream up to and including its first error. */
  function UpToError<T, E>(source: seq<Result<T, E>>): (r: seq<Result<T, E>>)
    ensures r <= source
  {
    if source == [] then []
    else if source[0].Err? then [source[0]]
    else [source[0]] + UpToError(source[1..])
  }

  function Oks<T, E>(messages: seq<T>): (r: seq<Result<T, E>>)
    ensures |r| == |messages| && forall i :: 0 <= i < |r| ==> r[i] == Ok(messages[i])
  {
    seq(|messages|, i requires 0 <= i < |messages| => Ok(messages[i]))
  }

  lemma OksConcat<T, E>(a: seq<T>, b: seq<T>)
    ensures Oks<T, E>(a + b) == Oks<T, E>(a) + Oks<T, E>(b)
  {
  }

  lemma {:induction false} UpToErrorSplit<T, E>(source: seq<Result<T, E>>, i: nat)
    requires i <= |source| && forall k :: 0 <= k < i ==> source[k].Ok?
    ensures UpToError(source) == source[..i] + UpToError(source[i..])
  {
    if i > 0 {
      var rest := source[1..];
      UpToErrorSplit(rest, i - 1);
      assert rest[i - 1..] == source[i..];
      assert source[..i] == [source[0]] + rest[..i - 1];
      assert source[0].Ok?;
      Assoc([source[0]], rest[..i - 1], UpToError(source[i..]));
    } else {
      assert source[0..] == source;
    }
  }

  /** A frame that left because it was full, and not a message earlier. */
  ghost predicate Full<T>(frame: seq<T>, len: T -> nat) {
    && frame != [] && TotalLength(frame, len) >= BATCH_BYTES
    && TotalLength(frame[..|frame| - 1], len) < BATCH_BYTES
  }

  /** How far `coalesce` has got: `pulled` messages taken in, the full frames released, the rest held. */
  ghost predicate Passed<T, E>(source: seq<Result<T, E>>, pulled: nat, len: T -> nat, frames: seq<seq<T>>, held: seq<T>) {
    && pulled <= |source|
    && Oks(Flatten(frames) + held) == source[..pulled]
    && (forall k :: 0 <= k < |frames| ==> Full(frames[k], len))
  }

  lemma PassedMore<T, E>(source: seq<Result<T, E>>, pulled: nat, len: T -> nat, frames: seq<seq<T>>, held: seq<T>, message: T)
    requires Passed(source, pulled, len, frames, held)
    requires pulled < |source| && source[pulled] == Ok(message)
    ensures Passed(source, pulled + 1, len, frames, held + [message])
    ensures Full(held + [message], len) ==> Passed(source, pulled + 1, len, frames + [held + [message]], [])
  {
    var more := held + [message];
    var sent := Flatten(frames);
    assert sent + more == (sent + held) + [message];
    OksConcat<T, E>(sent + held, [message]);
    assert source[..pulled + 1] == source[..pulled] + [source[pulled]];
    FlattenMore(frames, more);
    assert Flatten(frames + [more]) + [] == sent + more;
  }

  lemma PassedIsPrefix<T, E>(source: seq<Result<T, E>>, pulled: nat, len: T -> nat, frames: seq<seq<T>>, held: seq<T>)
    requires Passed(source, pulled, len, frames, held)
    ensures UpToError(source) == Oks(Flatten(frames)) + Oks(held) + UpToError(source[pulled..])
  {
    OksConcat<T, E>(Flatten(frames), held);
    forall k | 0 <= k < pulled ensures source[k].Ok? {
      assert source[..pulled][k] == source[k];
    }
    UpToErrorSplit(source, pulled);
  }

  /** `coalesce`: what comes out is what went in up to its first error, nothing held back, in frames that
      left because they were full; only the last one may be short. */
  method Coalesce<T, E>(source: seq<Result<T, E>>, len: T -> nat) returns (out: seq<Result<T, E>>, frames: seq<seq<T>>, last: seq<T>)
    ensures out == UpToError(source)
    ensures forall i :: 0 <= i < |frames| ==> Full(frames[i], len)
    ensures TotalLength(last, len) < BATCH_BYTES
    ensures Oks<T, E>(Flatten(frames)) + Oks<T, E>(last) <= out && |out| <= |Flatten(frames)| + |last| + 1
  {
    var batch := new FrameBatch<T>(len);
    out, frames, last := [], [], [];
    for i := 0 to |source|
      invariant batch.Valid() && batch.len == len && fresh(batch)
      invariant Passed(source, i, len, frames, batch.pending)
      invariant out == Oks(Flatten(frames))
    {
      PassedIsPrefix(source, i, len, frames, batch.pending);
      match source[i] {
        case Ok(message) =>
          ghost var held := batch.pending;
          PassedMore(source, i, len, frames, held, message);
          var ready := batch.Push(message);
          if ready.Some? {
            assert ready.value[..|ready.value| - 1] == held;
            FlattenMore(frames, ready.value);
            OksConcat<T, E>(Flatten(frames), ready.value);
            out := out + Oks(ready.value);
            frames := frames + [ready.value];
          }
        case Err(status) =>
          last := batch.Flush();
          assert source[i..][0] == Err(status);
          out := out + Oks(last) + [Err(status)];
          return;
      }
    }
    PassedIsPrefix(source, |source|, len, frames, batch.pending);
    last := batch.Flush();
    out := out + Oks(last);
    assert source[|source|..] == [];
  }

  function Flatten<T>(frames: seq<seq<T>>): seq<T> {
    if frames == [] then [] else Flatten(frames[..|frames| - 1]) + frames[|frames| - 1]
  }

  lemma FlattenMore<T>(frames: seq<seq<T>>, frame: seq<T>)
    ensures Flatten(frames + [frame]) == Flatten(frames) + frame
  {
    assert (frames + [frame])[..|frames|] == frames;
  }
}
