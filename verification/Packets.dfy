/** Packets as the host and the firmware exchange them: sequences of 32-bit words whose
    first word is the size of the packet in bytes. */
module Packets {
  type Word = w: int | 0 <= w < 0x1_0000_0000

  // The largest packet the reader accepts, in bytes (CVP_IFACEQ_VAR_HUGE_PKT_SIZE) and in words.
  const HUGE_BYTES: nat := 12288
  const HUGE_WORDS: nat := HUGE_BYTES / 4

  // The bit of a packet's kernel data that marks a command with fences.
  const FENCE_BIT: nat := 0x8000_0000_0000_0000

  type Packet = seq<Word>

  /** The number of whole words a size word announces. */
  function Announced(size: Word): nat {
    size / 4
  }

  /** The size word announces exactly the words that are there. */
  predicate SelfSized(p: Packet) {
    |p| > 0 && Announced(p[0]) == |p|
  }

  /** A packet the reader hands to its caller. */
  predicate Readable(p: Packet) {
    SelfSized(p) && |p| <= HUGE_WORDS
  }

  /** What may sit in a ring: the size word is right, or it is recognisably wrong. */
  predicate Framed(p: Packet) {
    |p| > 0 && (SelfSized(p) || Announced(p[0]) == 0 || Announced(p[0]) > HUGE_WORDS)
  }

  ghost predicate AllFramed(ps: seq<Packet>) {
    forall i :: 0 <= i < |ps| ==> Framed(ps[i])
  }

  /** The words of a run of packets, in order. */
  function Flatten(ps: seq<Packet>): seq<Word> {
    if ps == [] then [] else ps[0] + Flatten(ps[1..])
  }

  lemma {:induction false} FlattenAppend(ps: seq<Packet>, qs: seq<Packet>)
    ensures Flatten(ps + qs) == Flatten(ps) + Flatten(qs)
  {
    if ps == [] {
      assert ps + qs == qs;
    } else {
      assert (ps + qs)[1..] == ps[1..] + qs;
      FlattenAppend(ps[1..], qs);
    }
  }

  lemma FlattenSnoc(ps: seq<Packet>, p: Packet)
    ensures Flatten(ps + [p]) == Flatten(ps) + p
  {
    FlattenAppend(ps, [p]);
    assert Flatten([p]) == p + Flatten([]) == p;
  }

  /** Splits words into packets by following the size words; None when they do not line up. */
  function Parse(words: seq<Word>): (r: Option<seq<Packet>>)
    ensures r.Some? ==> Flatten(r.value) == words && forall p <- r.value :: SelfSized(p)
  {
    if words == [] then Some([])
    else
      var n := Announced(words[0]);
      if n == 0 || n > |words| then None
      else
        match Parse(words[n..])
        case None => None
        case Some(rest) =>
          assert words == words[..n] + words[n..];
          assert ([words[..n]] + rest)[1..] == rest;
          Some([words[..n]] + rest)
  }

  datatype Option<+T> = None | Some(value: T)

  /** The words in a ring determine the packets: following the size words recovers any run of
      self-sized packets. */
  lemma {:induction false} ParseFlatten(ps: seq<Packet>)
    requires forall p <- ps :: SelfSized(p)
    ensures Parse(Flatten(ps)) == Some(ps)
  {
    if ps != [] {
      var words, n := Flatten(ps), |ps[0]|;
      assert SelfSized(ps[0]);
      assert words[0] == ps[0][0];
      assert words[..n] == ps[0] && words[n..] == Flatten(ps[1..]);
      ParseFlatten(ps[1..]);
      assert [words[..n]] + ps[1..] == ps;
    }
  }
}
