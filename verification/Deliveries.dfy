/**
 What a reader hands to its consumer. A `Delivery` is the value of a read when the consumer
 accepts everything: the bytes in order, and the error that ended them, if any. `Sink` is the
 consumer, which may refuse a piece.
 */
module Deliveries {
  import opened Basics

  datatype Error =
    | SinkRefused              // the consumer's own error, passed on unchanged
    | Undescribed              // the metadata does not describe the stream
    | NoVolume                 // no volume given holds the stream
    | VolumeGone               // the volume is no longer available for reading
    | NoReader
    | RegionOverflow           // offset + length does not fit in 64 bits
    | PastStreamEnd            // a region ends past the stream's declared size
    | Unreadable               // a bevy, its index or a chunk cannot be read
    | ShortChunk               // a chunk short of the chunk size with stream bytes after it
    | ShortStream              // the chunks end before the declared size
    | NoTarget                 // an entry names a target the idx segment does not list
    | UnresolvedTarget         // an entry names a target whose bytes cannot be produced
    | NotDescribed
    | UnknownRegion
    | ShortRead
    | PastLastEntry            // a stream delivered bytes past the last entry naming it
    | EndedShort               // a stream ended before the entries naming it were filled
    | SizeMismatch             // the bytes delivered are not the size declared

  datatype Delivery = Delivery(bytes: seq<Byte>, error: Option<Error>) {
    predicate Whole() { error.None? }

    predicate Honest() { error != Some(SinkRefused) }
  }

  function Nothing(): Delivery { Delivery([], None) }

  function Failed(e: Error): Delivery { Delivery([], Some(e)) }

  function Bytes(b: seq<Byte>): Delivery { Delivery(b, None) }

  /** One read after another; the second never starts when the first fails. */
  function Then(a: Delivery, b: Delivery): Delivery {
    if a.error.Some? then a else Delivery(a.bytes + b.bytes, b.error)
  }

  /** How a consumer that held `before` and now holds `after` took part in delivering `d`. */
  ghost predicate Outcome(before: seq<Byte>, after: seq<Byte>, d: Delivery, error: Option<Error>, steady: bool) {
    if error == Some(SinkRefused) then
      !steady && before <= after && after <= before + d.bytes
    else
      error == d.error && after == before + d.bytes
  }

  /** Outcomes chain: the second part runs only after the first was delivered whole. */
  lemma OutcomeThen(b0: seq<Byte>, b1: seq<Byte>, b2: seq<Byte>, d1: Delivery, d2: Delivery,
                    error: Option<Error>, steady: bool)
    requires d1.Honest()
    requires Outcome(b0, b1, d1, None, steady)
    requires Outcome(b1, b2, d2, error, steady)
    ensures Outcome(b0, b2, Then(d1, d2), error, steady)
  {
    assert b0 + (d1.bytes + d2.bytes) == b1 + d2.bytes;
  }

  /** A failed first part is the outcome of the whole. */
  lemma OutcomeStops(b0: seq<Byte>, b1: seq<Byte>, d1: Delivery, d2: Delivery, error: Error, steady: bool)
    requires d1.Honest()
    requires Outcome(b0, b1, d1, Some(error), steady)
    ensures Outcome(b0, b1, Then(d1, d2), Some(error), steady)
  {
    if error == SinkRefused && d1.error.None? {
      assert b0 + (d1.bytes + d2.bytes) == (b0 + d1.bytes) + d2.bytes;
    }
  }

  lemma ThenAssociates(a: Delivery, b: Delivery, c: Delivery)
    ensures Then(Then(a, b), c) == Then(a, Then(b, c))
  {
    assert (a.bytes + b.bytes) + c.bytes == a.bytes + (b.bytes + c.bytes);
  }

  /** A reader that has to deliver `whole`, has delivered `done`, and has `rest` to go. */
  ghost predicate Underway(before: seq<Byte>, out: seq<Byte>, whole: Delivery, done: Delivery, rest: Delivery) {
    && done.Whole()
    && out == before + done.bytes
    && whole == Then(done, rest)
  }

  lemma Start(before: seq<Byte>, whole: Delivery)
    ensures Underway(before, before, whole, Nothing(), whole)
  {
  }

  /** Delivering the next part either advances the reader or ends the whole delivery. */
  lemma Advance(before: seq<Byte>, middle: seq<Byte>, out: seq<Byte>, whole: Delivery, done: Delivery,
                here: Delivery, rest: Delivery, error: Option<Error>, steady: bool)
    requires here.Honest()
    requires Underway(before, middle, whole, done, Then(here, rest))
    requires Outcome(middle, out, here, error, steady)
    ensures error.None? ==> here.Whole() && Underway(before, out, whole, Then(done, here), rest)
    ensures error.Some? ==> Outcome(before, out, whole, error, steady)
  {
    OutcomeThen(before, middle, out, done, here, error, steady);
    ThenAssociates(done, here, rest);
    if error.Some? {
      OutcomeStops(before, out, Then(done, here), rest, error.value, steady);
    }
  }

  /** Nothing is left: the delivery ends as the rest says. */
  lemma Finish(before: seq<Byte>, out: seq<Byte>, whole: Delivery, done: Delivery, rest: Delivery, steady: bool)
    requires Underway(before, out, whole, done, rest)
    requires rest.Honest() && rest.bytes == []
    ensures Outcome(before, out, whole, rest.error, steady)
  {
    assert done.bytes + rest.bytes == done.bytes;
  }

  /** The consumer: a steady one never refuses, another refuses once its patience is spent. */
  class Sink {
    var out: seq<Byte>
    var patience: nat
    const steady: bool

    constructor (steady: bool, patience: nat)
      ensures out == [] && this.steady == steady && this.patience == patience
    {
      this.steady := steady;
      this.patience := patience;
      out := [];
    }

    method Accept(piece: seq<Byte>) returns (error: Option<Error>)
      modifies this
      ensures Outcome(old(out), out, Bytes(piece), error, steady)
      ensures error.Some? ==> error == Some(SinkRefused) && out == old(out)
    {
      if !steady {
        if patience == 0 {
          return Some(SinkRefused);
        }
        patience := patience - 1;
      }
      out := out + piece;
      error := None;
    }
  }
}
