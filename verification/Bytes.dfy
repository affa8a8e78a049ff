/** Octets and small sequence facts shared by the byte-level modules. */
module Bytes {

  type byte = b: int | 0 <= b < 256

  /** The bytes carried by a run of frames, in order; `carried` says what one frame carries. */
  function Payload<F>(carried: F -> seq<byte>, frames: seq<F>): seq<byte> {
    if frames == [] then [] else
      Payload(carried, frames[..|frames| - 1]) + carried(frames[|frames| - 1])
  }

  lemma PayloadSnoc<F>(carried: F -> seq<byte>, frames: seq<F>, f: F)
    ensures Payload(carried, frames + [f]) == Payload(carried, frames) + carried(f)
  {
    assert (frames + [f])[..|frames|] == frames;
  }

  lemma {:induction false} PayloadConcat<F>(carried: F -> seq<byte>, xs: seq<F>, ys: seq<F>)
    ensures Payload(carried, xs + ys) == Payload(carried, xs) + Payload(carried, ys)
  {
    if ys == [] {
      assert xs + ys == xs;
    } else {
      var k := |ys| - 1;
      assert xs + ys == (xs + ys[..k]) + [ys[k]];
      PayloadSnoc(carried, xs + ys[..k], ys[k]);
      PayloadConcat(carried, xs, ys[..k]);
    }
  }

  /** The payload of a prefix is a prefix of the payload. */
  lemma PayloadOfPrefix<F>(carried: F -> seq<byte>, frames: seq<F>, k: nat)
    requires k <= |frames|
    ensures Payload(carried, frames[..k]) <= Payload(carried, frames)
  {
    assert frames == frames[..k] + frames[k..];
    PayloadConcat(carried, frames[..k], frames[k..]);
  }

  lemma PayloadHead<F>(carried: F -> seq<byte>, frames: seq<F>)
    requires frames != []
    ensures Payload(carried, frames) == carried(frames[0]) + Payload(carried, frames[1..])
  {
    assert frames == [frames[0]] + frames[1..];
    PayloadConcat(carried, [frames[0]], frames[1..]);
    assert [frames[0]][..0] == [];
  }

  /** Frames of at most `cap` bytes each carry at most `cap` bytes times their number. */
  lemma {:induction false} PayloadBound<F>(carried: F -> seq<byte>, frames: seq<F>, cap: nat)
    requires forall i :: 0 <= i < |frames| ==> |carried(frames[i])| <= cap
    ensures |Payload(carried, frames)| <= cap * |frames|
  {
    if frames != [] {
      PayloadBound(carried, frames[..|frames| - 1], cap);
      OneMore(cap, |frames| - 1);
    }
  }

  lemma OneMore(cap: nat, n: nat)
    ensures cap * n + cap == cap * (n + 1)
  {
  }
}
