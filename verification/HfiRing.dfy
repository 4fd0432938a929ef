/** The shared-memory queue between host and firmware: __write_queue and __read_queue over a
    ring of 32-bit words, run without interference from the other side. */
module HfiRing {
  import opened Packets

  const ENODATA: int := -61
  const ENOTEMPTY: int := -39

  /** The words from index r up to index w, going round the end of the ring when w is behind r. */
  function Between(words: seq<Word>, r: nat, w: nat): seq<Word>
    requires r < |words| && w < |words|
  {
    if r <= w then words[r..w] else words[r..] + words[..w]
  }

  // Writing a chunk at w that ends before the end of the ring.
  lemma AppendPlain(before: seq<Word>, after: seq<Word>, r: nat, w: nat, chunk: seq<Word>)
    requires r < |before| && w + |chunk| < |before|
    requires w < r ==> w + |chunk| < r
    requires after == before[..w] + chunk + before[w + |chunk|..]
    ensures Between(after, r, w + |chunk|) == Between(before, r, w) + chunk
    ensures Between(after, r, w) == Between(before, r, w)
  {
    assert after[..w + |chunk|] == before[..w] + chunk;
    if r <= w {
      assert (before[..w] + chunk)[r..] == before[..w][r..] + chunk;
    } else {
      assert after[r..] == before[r..];
      assert Between(before, r, w) + chunk == before[r..] + (before[..w] + chunk);
    }
  }

  // Writing a chunk at w whose tail of k words goes to the start of the ring.
  lemma AppendWrapped(before: seq<Word>, after: seq<Word>, r: nat, w: nat, chunk: seq<Word>, k: nat)
    requires k < r <= w < |before| && w + |chunk| == |before| + k
    requires after == chunk[|chunk| - k..] + before[k..w] + chunk[..|chunk| - k]
    ensures Between(after, r, k) == Between(before, r, w) + chunk
    ensures Between(after, r, w) == Between(before, r, w)
  {
    assert after[r..w] == before[r..w];
    assert Between(after, r, k) == before[r..w] + chunk[..|chunk| - k] + chunk[|chunk| - k..];
    assert chunk[..|chunk| - k] + chunk[|chunk| - k..] == chunk;
  }

  /** The index n words after r. */
  function Ahead(r: nat, n: nat, size: nat): nat {
    if r + n < size then r + n else r + n - size
  }

  /** The n words from index r on. */
  function Span(words: seq<Word>, r: nat, n: nat): seq<Word>
    requires r < |words| && r + n - |words| <= |words|
  {
    if r + n < |words| then words[r..r + n] else words[r..] + words[..r + n - |words|]
  }

  // Advancing r past n words, round the end of the ring when they reach it.
  lemma Advance(words: seq<Word>, r: nat, w: nat, n: nat)
    requires r < |words| && w < |words| && n <= |Between(words, r, w)|
    ensures Ahead(r, n, |words|) < |words|
    ensures Span(words, r, n) + Between(words, Ahead(r, n, |words|), w) == Between(words, r, w)
  {
    if r + n >= |words| {
      var k := r + n - |words|;
      assert words[..k] + words[k..w] == words[..w];
    }
  }

  // The packet at the head of the unread words, and what is left once it has been read.
  lemma HeadPacket(words: seq<Word>, r: nat, w: nat, pending: seq<Packet>)
    requires r < |words| && w < |words|
    requires AllFramed(pending) && Flatten(pending) == Between(words, r, w)
    ensures pending == [] <==> r == w
    ensures pending != [] ==> pending[0][0] == words[r]
    ensures pending != [] && SelfSized(pending[0]) ==>
              var n := |pending[0]|;
              && n < |words| && Ahead(r, n, |words|) < |words|
              && pending[0] == Span(words, r, n)
              && Flatten(pending[1..]) == Between(words, Ahead(r, n, |words|), w)
  {
    if pending != [] {
      assert Framed(pending[0]);
      var n := |pending[0]|;
      assert Flatten(pending)[..n] == pending[0] && Flatten(pending)[n..] == Flatten(pending[1..]);
      assert pending[0][0] == Flatten(pending)[0];
      Advance(words, r, w, n);
    }
  }

  class Ring {
    // True of the message queue, whose type carries HFI_Q_ID_CTRL_TO_HOST_MSG_Q.
    const isMessage: bool
    const words: array<Word>
    var readIdx: nat
    var writeIdx: nat
    var rxReq: Word
    var txReq: Word
    // The packets published and not yet read, oldest first.
    ghost var pending: seq<Packet>

    ghost predicate Valid()
      reads this, words
    {
      && readIdx < words.Length
      && writeIdx < words.Length
      && AllFramed(pending)
      && Flatten(pending) == Between(words[..], readIdx, writeIdx)
    }

    /** Words in use; one slot always stays free, so that equal indices mean empty. */
    ghost function Used(): nat
      reads this, words
      requires Valid()
    {
      |Flatten(pending)|
    }

    // The header a queue starts with (rx_req is cleared afterwards on the debug queue).
    constructor (size: nat, isMessage: bool, isDebug: bool)
      requires size > 0
      ensures Valid() && fresh(words) && words.Length == size && this.isMessage == isMessage
      ensures pending == [] && readIdx == writeIdx == 0 && txReq == 0
      ensures rxReq == if isDebug then 0 else 1
    {
      this.isMessage := isMessage;
      words := new Word[size](_ => 0);
      readIdx, writeIdx := 0, 0;
      rxReq := if isDebug then 0 else 1;
      txReq := 0;
      pending := [];
    }

    /** Copies a run of words into the ring at index start, as memcpy does. */
    method CopyIn(start: nat, source: seq<Word>)
      requires start + |source| <= words.Length
      modifies words
      ensures words[..] == old(words[..start]) + source + old(words[start + |source|..])
    {
      forall i | 0 <= i < |source| {
        words[start + i] := source[i];
      }
    }

    /** Copies a chunk to the end of the ring and its last k words to the start. */
    method CopyRound(chunk: seq<Word>, k: nat)
      requires k < writeIdx < words.Length && writeIdx + |chunk| == words.Length + k
      modifies words
      ensures words[..] == chunk[|chunk| - k..] + old(words[k..writeIdx]) + chunk[..|chunk| - k]
    {
      CopyIn(writeIdx, chunk[..|chunk| - k]);
      assert words[k..writeIdx] == old(words[k..writeIdx]);
      assert words[writeIdx..] == chunk[..|chunk| - k];
      ghost var middle := words[k..];
      assert middle == old(words[k..writeIdx]) + chunk[..|chunk| - k];
      CopyIn(0, chunk[|chunk| - k..]);
    }

    /** Copies a chunk in after the unread words, in two pieces when it meets the end of the ring. */
    method Append(chunk: seq<Word>) returns (newWriteIdx: nat)
      requires readIdx < words.Length && writeIdx < words.Length
      requires |Between(words[..], readIdx, writeIdx)| + |chunk| < words.Length
      modifies words
      ensures newWriteIdx < words.Length
      ensures Between(words[..], readIdx, newWriteIdx) == old(Between(words[..], readIdx, writeIdx)) + chunk
      ensures Between(words[..], readIdx, writeIdx) == old(Between(words[..], readIdx, writeIdx))
    {
      var size, n := words.Length, |chunk|;
      ghost var before := words[..];
      newWriteIdx := writeIdx + n;
      if newWriteIdx < size {
        CopyIn(writeIdx, chunk);
        AppendPlain(before, words[..], readIdx, writeIdx, chunk);
      } else {
        newWriteIdx := newWriteIdx - size;
        CopyRound(chunk, newWriteIdx);
        AppendWrapped(before, words[..], readIdx, writeIdx, chunk, newWriteIdx);
      }
    }

    /** __write_queue. The packet buffer must hold the words its size word announces. */
    method WriteQueue(packet: seq<Word>) returns (rc: int, rxReqIsSet: bool)
      requires Valid()
      requires |packet| > 0 && Announced(packet[0]) <= |packet|
      modifies words, `writeIdx, `txReq, `pending
      ensures Valid()
      ensures rc in {0, ENODATA, ENOTEMPTY}
      ensures rc == ENODATA <==> Announced(packet[0]) == 0 || Announced(packet[0]) > words.Length
      ensures rc == 0 <==> 0 < Announced(packet[0]) && old(Used()) + Announced(packet[0]) < words.Length
      ensures rc == 0 ==> pending == old(pending) + [packet[..Announced(packet[0])]]
      ensures Between(words[..], readIdx, old(writeIdx)) == old(Between(words[..], readIdx, writeIdx))
      ensures rc == 0 ==> rxReqIsSet == (rxReq == 1) && txReq == 0
      ensures rc != 0 ==> pending == old(pending) && writeIdx == old(writeIdx) && words[..] == old(words[..])
      ensures rc == ENODATA ==> txReq == old(txReq)
      ensures rc == ENOTEMPTY ==> txReq == 1
    {
      rxReqIsSet := false;
      var size := words.Length;
      var n := Announced(packet[0]);
      if n == 0 || n > size {
        return ENODATA, false;
      }
      var emptySpace := if writeIdx >= readIdx then size - (writeIdx - readIdx) else readIdx - writeIdx;
      if emptySpace <= n {
        txReq := 1;
        return ENOTEMPTY, false;
      }
      txReq := 0;
      var chunk := packet[..n];
      var newWriteIdx := Append(chunk);
      FlattenSnoc(pending, chunk);
      pending := pending + [chunk];
      writeIdx := newWriteIdx;
      rxReqIsSet := rxReq == 1;
      rc := 0;
    }

    /** Copies n words out from the read index on, in two pieces when they meet the end of the ring. */
    method CopyOut(n: nat) returns (packet: seq<Word>, newReadIdx: nat)
      requires readIdx < words.Length && readIdx + n < 2 * words.Length
      ensures packet == Span(words[..], readIdx, n)
      ensures newReadIdx == Ahead(readIdx, n, words.Length) < words.Length
    {
      newReadIdx := readIdx + n;
      if newReadIdx < words.Length {
        packet := words[readIdx..newReadIdx];
      } else {
        newReadIdx := newReadIdx - words.Length;
        packet := words[readIdx..readIdx + (n - newReadIdx)] + words[..newReadIdx];
      }
    }

    /** __read_queue with the writer idle throughout the call. */
    method ReadQueue() returns (rc: int, packet: seq<Word>, txReqIsSet: bool)
      requires Valid()
      modifies `readIdx, `rxReq, `pending
      ensures Valid()
      ensures rc == 0 <==> old(pending) != [] && Readable(old(pending)[0])
      ensures rc != 0 ==> rc == ENODATA
      // The oldest packet, word for word.
      ensures rc == 0 ==> packet == old(pending)[0] && pending == old(pending)[1..]
      // Nothing published: ask for an interrupt on the next write.
      ensures old(pending) == [] ==> pending == [] && !txReqIsSet && readIdx == old(readIdx)
      // A size word of zero stops the reader where it is.
      ensures old(pending) != [] && Announced(old(pending)[0][0]) == 0 ==>
        pending == old(pending) && readIdx == old(readIdx) && rxReq == old(rxReq)
      // An oversized packet takes everything published with it.
      ensures old(pending) != [] && Announced(old(pending)[0][0]) > HUGE_WORDS ==>
        pending == [] && readIdx == writeIdx
      ensures old(pending) == [] || Announced(old(pending)[0][0]) != 0 ==>
        rxReq == if pending == [] && isMessage then 1 else 0
      ensures old(pending) != [] && Announced(old(pending)[0][0]) != 0 ==> txReqIsSet == (txReq == 1)
    {
      packet, txReqIsSet := [], false;
      var ring := words[..];
      HeadPacket(ring, readIdx, writeIdx, pending);
      var receiveRequest: Word := if isMessage then 1 else 0;
      if readIdx == writeIdx {
        rxReq := receiveRequest;
        return ENODATA, [], false;
      }
      var n := Announced(ring[readIdx]);
      if n == 0 {
        return ENODATA, [], false;
      }
      var newReadIdx := readIdx + n;
      if n <= HUGE_WORDS {
        packet, newReadIdx := CopyOut(n);
        assert packet == pending[0];
        assert packet[0 := ring[readIdx]] == packet;
        packet := packet[0 := ring[readIdx]];
        rc := 0;
        pending := pending[1..];
      } else {
        newReadIdx := writeIdx;
        rc := ENODATA;
        pending := [];
      }
      rxReq := if newReadIdx != writeIdx then 0 else receiveRequest;
      readIdx := newReadIdx;
      txReqIsSet := txReq == 1;
    }
  }
}
