/** The prefix parser that digs the recent blockhash out of a serialized
    transaction, proved against a serializer for the legacy and versioned layouts. */
module Transaction {
  import opened Bits
  import opened ShortVec
  import opened Wrappers

  const SIGNATURE_LENGTH: nat := 64
  const ACCOUNT_LENGTH: nat := 32
  const HASH_LENGTH: nat := 32

  /** Largest offset the cursor can take: every length prefix at its maximum. */
  const MAX_CURSOR: nat := 3 + 64 * 65535 + 1 + 3 + 3 + 32 * 65535

  datatype Tx = Tx(
    signatures: seq<Bytes>,
    version: Option<byte>,
    header: Bytes,
    accounts: seq<Bytes>,
    blockhash: Bytes,
    rest: Bytes)

  ghost predicate AllOfLength(chunks: seq<Bytes>, size: nat) {
    forall i :: 0 <= i < |chunks| ==> |chunks[i]| == size
  }

  /** A versioned message starts with a byte whose top bit is set; a legacy one
      starts with a header, whose signature count stays below 0x80. */
  ghost predicate WellFormed(tx: Tx) {
    && |tx.signatures| <= 65535 && AllOfLength(tx.signatures, 64)
    && |tx.header| == 3
    && (match tx.version case None => tx.header[0] < 0x80 case Some(v) => v >= 0x80)
    && |tx.accounts| <= 65535 && AllOfLength(tx.accounts, 32)
    && |tx.blockhash| == 32
  }

  function Flatten(chunks: seq<Bytes>): Bytes {
    if chunks == [] then [] else chunks[0] + Flatten(chunks[1..])
  }

  lemma {:induction false} FlattenLength(chunks: seq<Bytes>, size: nat)
    requires AllOfLength(chunks, size)
    ensures |Flatten(chunks)| == |chunks| * size
  {
    if chunks != [] {
      FlattenLength(chunks[1..], size);
      assert |chunks| * size == size + (|chunks| - 1) * size;
    }
  }

  function VersionBytes(tx: Tx): Bytes {
    match tx.version case None => [] case Some(v) => [v]
  }

  function Tail(tx: Tx): Bytes
    requires |tx.accounts| <= U16_MAX
  {
    Encode(|tx.accounts|) + (Flatten(tx.accounts) + (tx.blockhash + tx.rest))
  }

  function Message(tx: Tx): Bytes
    requires |tx.accounts| <= U16_MAX
  {
    VersionBytes(tx) + tx.header + Tail(tx)
  }

  function Serialize(tx: Tx): Bytes
    requires |tx.signatures| <= U16_MAX && |tx.accounts| <= U16_MAX
  {
    Encode(|tx.signatures|) + (Flatten(tx.signatures) + Message(tx))
  }

  /** Where the account count starts, given where the message starts. */
  function AfterHeader(bytes: Bytes, cursor: nat): (r: nat)
    requires cursor < |bytes|
    ensures cursor + 3 <= r <= cursor + 4
  {
    cursor + (if And(bytes[cursor], 0x80) != 0 then 1 else 0) + 3
  }

  /** Offset of the blockhash, if the bytes reach that far. */
  function Locate(bytes: Bytes): (r: Option<nat>)
    ensures r.Some? ==> r.value + HASH_LENGTH <= |bytes| && r.value <= MAX_CURSOR
  {
    match Decode(bytes)
    case None => None
    case Some((sigs, n)) =>
      var start := n + sigs * SIGNATURE_LENGTH;
      if start >= |bytes| then None
      else LocateAfterHeader(bytes, AfterHeader(bytes, start))
  }

  function LocateAfterHeader(bytes: Bytes, cursor: nat): (r: Option<nat>)
    ensures r.Some? ==> r.value + HASH_LENGTH <= |bytes| && r.value <= cursor + 3 + 32 * 65535
  {
    if cursor > |bytes| then None
    else
      match Decode(bytes[cursor..])
      case None => None
      case Some((accts, n)) =>
        var at := cursor + n + accts * ACCOUNT_LENGTH;
        if at + HASH_LENGTH > |bytes| then None else Some(at)
  }

  /** An accepted input, taken apart at its two counts. */
  lemma LocateParts(bytes: Bytes) returns (sigs: nat, n: nat, cursor: nat, accts: nat, m: nat)
    requires Locate(bytes).Some?
    ensures Decode(bytes) == Some((sigs, n)) && n + sigs * SIGNATURE_LENGTH < |bytes|
    ensures cursor == AfterHeader(bytes, n + sigs * SIGNATURE_LENGTH) <= |bytes|
    ensures Decode(bytes[cursor..]) == Some((accts, m))
    ensures Locate(bytes) == LocateAfterHeader(bytes, cursor) == Some(cursor + m + accts * ACCOUNT_LENGTH)
  {
    sigs, n := Decode(bytes).value.0, Decode(bytes).value.1;
    cursor := AfterHeader(bytes, n + sigs * SIGNATURE_LENGTH);
    accts, m := Decode(bytes[cursor..]).value.0, Decode(bytes[cursor..]).value.1;
  }

  /** ... and put together again. */
  lemma LocateFrom(bytes: Bytes, sigs: nat, n: nat, cursor: nat)
    requires Decode(bytes) == Some((sigs, n)) && n + sigs * SIGNATURE_LENGTH < |bytes|
    requires cursor == AfterHeader(bytes, n + sigs * SIGNATURE_LENGTH)
    ensures Locate(bytes) == LocateAfterHeader(bytes, cursor)
  {}

  function HashAt(bytes: Bytes, at: nat): Bytes
    requires at + HASH_LENGTH <= |bytes|
  {
    bytes[at..at + HASH_LENGTH]
  }

  function Extracted(bytes: Bytes): Option<Bytes> {
    match Locate(bytes) case None => None case Some(at) => Some(HashAt(bytes, at))
  }

  /** The parser. No index or slice is ever out of bounds, and the cursor stays
      below a fixed bound, so it cannot wrap even where `usize` has 32 bits. */
  method ExtractBlockhash(bytes: Bytes) returns (r: Option<Bytes>)
    ensures r == Extracted(bytes)
  {
    var cursor := 0;
    assert bytes[cursor..] == bytes;
    var sigs := ReadShortvec(bytes[cursor..]);
    if sigs == None {
      return None;
    }
    cursor := cursor + sigs.value.1;
    cursor := cursor + sigs.value.0 * SIGNATURE_LENGTH;
    if cursor >= |bytes| {
      return None;
    }
    var first := bytes[cursor];
    if And(first, 0x80) != 0 {
      cursor := cursor + 1;
    }
    cursor := cursor + 3;
    if cursor > |bytes| {
      return None;
    }
    var accts := ReadShortvec(bytes[cursor..]);
    if accts == None {
      return None;
    }
    cursor := cursor + accts.value.1;
    cursor := cursor + accts.value.0 * ACCOUNT_LENGTH;
    assert cursor <= MAX_CURSOR;
    if cursor + 32 > |bytes| {
      return None;
    }
    return Some(bytes[cursor..cursor + 32]);
  }

  lemma SliceAfter(p: Bytes, q: Bytes)
    ensures (p + q)[|p|..] == q
  {}

  /** From the account count on, the parser lands on the blockhash. */
  lemma LocateInMessage(front: Bytes, tx: Tx)
    requires WellFormed(tx)
    ensures
      LocateAfterHeader(front + Tail(tx), |front|) ==
      Some(|front| + |Encode(|tx.accounts|)| + |tx.accounts| * ACCOUNT_LENGTH)
  {
    var after := Flatten(tx.accounts) + (tx.blockhash + tx.rest);
    SliceAfter(front, Tail(tx));
    RoundTrip(|tx.accounts|, after);
    FlattenLength(tx.accounts, ACCOUNT_LENGTH);
  }

  /** The signatures are skipped, then the version byte, if any, and the header. */
  lemma HeaderInSerialize(tx: Tx)
    requires WellFormed(tx)
    ensures
      var bytes := Serialize(tx);
      var start := |Encode(|tx.signatures|)| + |Flatten(tx.signatures)|;
      && Decode(bytes) == Some((|tx.signatures|, |Encode(|tx.signatures|)|))
      && |Flatten(tx.signatures)| == |tx.signatures| * SIGNATURE_LENGTH
      && start < |bytes|
      && AfterHeader(bytes, start) == start + |VersionBytes(tx)| + 3
  {
    RoundTrip(|tx.signatures|, Flatten(tx.signatures) + Message(tx));
    FlattenLength(tx.signatures, SIGNATURE_LENGTH);
    MessageStart(tx);
    SkipHeader(Serialize(tx), |Encode(|tx.signatures|)| + |Flatten(tx.signatures)|, tx);
  }

  lemma MessageStart(tx: Tx)
    requires WellFormed(tx)
    ensures
      var start := |Encode(|tx.signatures|)| + |Flatten(tx.signatures)|;
      start < |Serialize(tx)| && Serialize(tx)[start] == Message(tx)[0]
  {
    var enc, sigs := Encode(|tx.signatures|), Flatten(tx.signatures);
    assert Serialize(tx) == enc + (sigs + Message(tx));
  }

  lemma SkipHeader(bytes: Bytes, start: nat, tx: Tx)
    requires WellFormed(tx) && start < |bytes| && bytes[start] == Message(tx)[0]
    ensures AfterHeader(bytes, start) == start + |VersionBytes(tx)| + 3
  {
    ByteMasks(bytes[start]);
  }

  function Front(tx: Tx): Bytes
    requires |tx.signatures| <= U16_MAX
  {
    Encode(|tx.signatures|) + Flatten(tx.signatures) + VersionBytes(tx) + tx.header
  }

  lemma SerializeSplit(tx: Tx)
    requires WellFormed(tx)
    ensures Serialize(tx) == Front(tx) + Tail(tx)
  {
    var a, b, c, d := Encode(|tx.signatures|), Flatten(tx.signatures), VersionBytes(tx), tx.header;
    assert Serialize(tx) == a + (b + (c + d + Tail(tx)));
  }

  lemma LocateFront(tx: Tx)
    requires WellFormed(tx)
    ensures Locate(Serialize(tx)) == LocateAfterHeader(Serialize(tx), |Front(tx)|)
  {
    HeaderInSerialize(tx);
    LocateFrom(Serialize(tx), |tx.signatures|, |Encode(|tx.signatures|)|, |Front(tx)|);
  }

  lemma LocateBody(tx: Tx)
    requires WellFormed(tx)
    ensures LocateAfterHeader(Serialize(tx), |Front(tx)|) ==
            Some(|Front(tx)| + |Encode(|tx.accounts|)| + |Flatten(tx.accounts)|)
  {
    SerializeSplit(tx);
    LocateInMessage(Front(tx), tx);
    FlattenLength(tx.accounts, ACCOUNT_LENGTH);
  }

  lemma LocateSerialize(tx: Tx)
    requires WellFormed(tx)
    ensures Locate(Serialize(tx)) ==
            Some(|Front(tx)| + |Encode(|tx.accounts|)| + |Flatten(tx.accounts)|)
  {
    LocateFront(tx);
    LocateBody(tx);
  }

  lemma SliceOfTail(front: Bytes, count: Bytes, accts: Bytes, hash: Bytes, rest: Bytes)
    ensures
      var at := |front| + |count| + |accts|;
      (front + (count + (accts + (hash + rest))))[at..at + |hash|] == hash
  {}

  /** The parser round trip: from the serialization of any well-formed transaction,
      legacy or versioned, exactly its blockhash comes back. */
  lemma ExtractOfSerialize(tx: Tx)
    requires WellFormed(tx)
    ensures Extracted(Serialize(tx)) == Some(tx.blockhash)
  {
    LocateSerialize(tx);
    SerializeSplit(tx);
    SliceOfTail(Front(tx), Encode(|tx.accounts|), Flatten(tx.accounts), tx.blockhash, tx.rest);
  }

  lemma TruncationAfterHeader(bytes: Bytes, cursor: nat, k: nat)
    requires cursor <= |bytes| && k <= |bytes| && LocateAfterHeader(bytes, cursor).Some?
    ensures
      var at := LocateAfterHeader(bytes, cursor).value;
      LocateAfterHeader(bytes[..k], cursor) == if k >= at + HASH_LENGTH then Some(at) else None
  {
    var cut := bytes[..k];
    if cursor <= k {
      assert bytes[cursor..] == cut[cursor..] + bytes[k..];
      DecodePrefix(cut[cursor..], bytes[k..]);
    }
  }

  lemma TruncationHeader(bytes: Bytes, k: nat) returns (cursor: nat)
    requires Locate(bytes).Some? && k <= |bytes|
    ensures cursor <= |bytes| && Locate(bytes) == LocateAfterHeader(bytes, cursor)
    ensures Locate(bytes[..k]) == LocateAfterHeader(bytes[..k], cursor) || (Locate(bytes[..k]) == None && k < cursor)
  {
    var sigs, n, c, _, _ := LocateParts(bytes);
    var cut := bytes[..k];
    cursor := c;
    assert Decode(cut) == if n <= k then Some((sigs, n)) else None by {
      assert bytes == cut + bytes[k..];
      DecodePrefix(cut, bytes[k..]);
    }
    if n + sigs * SIGNATURE_LENGTH < k {
      LocateFrom(cut, sigs, n, cursor);
    }
  }

  lemma TruncationLocate(bytes: Bytes, k: nat)
    requires Locate(bytes).Some? && k <= |bytes|
    ensures Locate(bytes[..k]) == if k >= Locate(bytes).value + HASH_LENGTH then Locate(bytes) else None
  {
    var cursor := TruncationHeader(bytes, k);
    TruncationAfterHeader(bytes, cursor, k);
  }

  /** The parser looks at a prefix only: an accepted input cut after its blockhash
      gives the same answer, and cut any earlier it is rejected, never misread. */
  lemma Truncation(bytes: Bytes, k: nat)
    requires Locate(bytes).Some? && k <= |bytes|
    ensures Extracted(bytes[..k]) ==
            if k >= Locate(bytes).value + HASH_LENGTH then Extracted(bytes) else None
  {
    TruncationLocate(bytes, k);
    if k >= Locate(bytes).value + HASH_LENGTH {
      HashOfPrefix(bytes, k, Locate(bytes).value);
    }
  }

  lemma HashOfPrefix(bytes: Bytes, k: nat, at: nat)
    requires at + HASH_LENGTH <= k <= |bytes|
    ensures HashAt(bytes[..k], at) == HashAt(bytes, at)
  {}

  lemma SliceOfFront(bytes: Bytes, more: Bytes, i: nat, j: nat)
    requires i <= j <= |bytes|
    ensures (bytes + more)[i..j] == bytes[i..j]
  {}

  lemma AppendHeader(bytes: Bytes, more: Bytes) returns (cursor: nat)
    requires Locate(bytes).Some?
    ensures cursor <= |bytes| && Locate(bytes) == LocateAfterHeader(bytes, cursor)
    ensures Locate(bytes + more) == LocateAfterHeader(bytes + more, cursor)
  {
    var sigs, n, c, _, _ := LocateParts(bytes);
    cursor := c;
    DecodePrefix(bytes, more);
    LocateFrom(bytes + more, sigs, n, cursor);
  }

  lemma AppendAfterHeader(bytes: Bytes, more: Bytes, cursor: nat)
    requires cursor <= |bytes| && LocateAfterHeader(bytes, cursor).Some?
    ensures LocateAfterHeader(bytes + more, cursor) == LocateAfterHeader(bytes, cursor)
  {
    assert (bytes + more)[cursor..] == bytes[cursor..] + more;
    DecodePrefix(bytes[cursor..], more);
  }

  /** Appending bytes never changes an answer. */
  lemma AppendStable(bytes: Bytes, more: Bytes)
    requires Extracted(bytes).Some?
    ensures Extracted(bytes + more) == Extracted(bytes)
  {
    var cursor := AppendHeader(bytes, more);
    AppendAfterHeader(bytes, more, cursor);
    var at := Locate(bytes).value;
    SliceOfFront(bytes, more, at, at + HASH_LENGTH);
  }

  /** `n` consecutive chunks of `size` bytes. */
  function Chunks(bytes: Bytes, size: nat, n: nat): (chunks: seq<Bytes>)
    requires n * size <= |bytes|
    ensures |chunks| == n
    decreases n
  {
    if n == 0 then []
    else
      OneChunk(size, n);
      [bytes[..size]] + Chunks(bytes[size..], size, n - 1)
  }

  lemma OneChunk(size: nat, n: nat)
    requires n > 0
    ensures n * size == size + (n - 1) * size && (n - 1) * size >= 0
  {}

  lemma TakeSum(bytes: Bytes, i: nat, j: nat)
    requires i + j <= |bytes|
    ensures bytes[..i + j] == bytes[..i] + bytes[i..][..j]
  {}

  lemma {:induction false} FlattenChunks(bytes: Bytes, size: nat, n: nat)
    requires n * size <= |bytes|
    ensures AllOfLength(Chunks(bytes, size, n), size)
    ensures Flatten(Chunks(bytes, size, n)) == bytes[..n * size]
    decreases n
  {
    if n > 0 {
      OneChunk(size, n);
      FlattenChunks(bytes[size..], size, n - 1);
      TakeSum(bytes, size, (n - 1) * size);
      var chunks := Chunks(bytes, size, n);
      assert chunks[1..] == Chunks(bytes[size..], size, n - 1);
    }
  }

  /** The transaction an accepted input spells, given the offsets of its sections. */
  function Parsed(bytes: Bytes, n: nat, sigs: nat, start: nat, cursor: nat, m: nat, accts: nat, at: nat): (tx: Tx)
    requires n + sigs * SIGNATURE_LENGTH == start < |bytes| && start + 3 <= cursor
    requires cursor + m + accts * ACCOUNT_LENGTH == at && at + HASH_LENGTH <= |bytes|
  {
    Tx(Chunks(bytes[n..], SIGNATURE_LENGTH, sigs),
       if bytes[start] >= 0x80 then Some(bytes[start]) else None,
       bytes[cursor - 3..cursor],
       Chunks(bytes[cursor + m..], ACCOUNT_LENGTH, accts),
       bytes[at..at + HASH_LENGTH],
       bytes[at + HASH_LENGTH..])
  }

  lemma ParsedSections(bytes: Bytes, n: nat, sigs: nat, start: nat, cursor: nat, m: nat, accts: nat, at: nat)
    requires n + sigs * SIGNATURE_LENGTH == start < |bytes| && cursor == AfterHeader(bytes, start)
    requires cursor + m + accts * ACCOUNT_LENGTH == at && at + HASH_LENGTH <= |bytes|
    requires sigs <= U16_MAX && accts <= U16_MAX
    ensures
      var tx := Parsed(bytes, n, sigs, start, cursor, m, accts, at);
      && WellFormed(tx) && |tx.signatures| == sigs && |tx.accounts| == accts
      && Flatten(tx.signatures) == bytes[n..][..start - n]
      && VersionBytes(tx) == bytes[start..cursor - 3]
      && Flatten(tx.accounts) == bytes[cursor + m..][..at - (cursor + m)]
  {
    FlattenChunks(bytes[n..], SIGNATURE_LENGTH, sigs);
    FlattenChunks(bytes[cursor + m..], ACCOUNT_LENGTH, accts);
    ByteMasks(bytes[start]);
  }

  lemma CountsOf(bytes: Bytes) returns (sigs: nat, n: nat, cursor: nat, accts: nat, m: nat)
    requires Locate(bytes).Some?
    ensures n + sigs * SIGNATURE_LENGTH < |bytes|
    ensures cursor == AfterHeader(bytes, n + sigs * SIGNATURE_LENGTH) && cursor + m <= |bytes|
    ensures cursor + m + accts * ACCOUNT_LENGTH + HASH_LENGTH <= |bytes|
    ensures Extracted(bytes) == Some(HashAt(bytes, cursor + m + accts * ACCOUNT_LENGTH))
    ensures Decode(bytes[..n]) == Some((sigs, n)) && Decode(bytes[cursor..][..m]) == Some((accts, m))
    ensures sigs <= U16_MAX && accts <= U16_MAX
  {
    sigs, n, cursor, accts, m := LocateParts(bytes);
    DecodeOwnBytes(bytes, sigs, n);
    DecodeOwnBytes(bytes[cursor..], accts, m);
  }

  /** The bytes are the transaction's sections in order, with these two counts. */
  ghost predicate LaidOut(bytes: Bytes, sigCount: Bytes, acctCount: Bytes, tx: Tx) {
    bytes == sigCount + Flatten(tx.signatures) + VersionBytes(tx) + tx.header
             + acctCount + Flatten(tx.accounts) + tx.blockhash + tx.rest
  }

  /** The transaction between two counts of the given lengths. */
  lemma Assemble(bytes: Bytes, n: nat, sigs: nat, cursor: nat, m: nat, accts: nat) returns (tx: Tx)
    requires n + sigs * SIGNATURE_LENGTH < |bytes| && cursor == AfterHeader(bytes, n + sigs * SIGNATURE_LENGTH)
    requires cursor + m + accts * ACCOUNT_LENGTH + HASH_LENGTH <= |bytes|
    requires sigs <= U16_MAX && accts <= U16_MAX
    ensures WellFormed(tx) && |tx.signatures| == sigs && |tx.accounts| == accts
    ensures tx.blockhash == HashAt(bytes, cursor + m + accts * ACCOUNT_LENGTH)
    ensures LaidOut(bytes, bytes[..n], bytes[cursor..][..m], tx)
  {
    var start, at := n + sigs * SIGNATURE_LENGTH, cursor + m + accts * ACCOUNT_LENGTH;
    ParsedSections(bytes, n, sigs, start, cursor, m, accts, at);
    tx := Parsed(bytes, n, sigs, start, cursor, m, accts, at);
    Reassemble(bytes, tx, bytes[..n], bytes[cursor..][..m], n, start, cursor - 3, cursor, cursor + m, at);
  }

  /** Nothing else is accepted: whatever the parser accepts is some well-formed
      transaction laid out section by section, its two counts possibly padded,
      and the answer is that transaction's blockhash. */
  lemma AcceptedIsTransaction(bytes: Bytes) returns (tx: Tx, sigCount: Bytes, acctCount: Bytes)
    requires Extracted(bytes).Some?
    ensures WellFormed(tx) && Extracted(bytes) == Some(tx.blockhash)
    ensures Decode(sigCount) == Some((|tx.signatures|, |sigCount|))
    ensures Decode(acctCount) == Some((|tx.accounts|, |acctCount|))
    ensures LaidOut(bytes, sigCount, acctCount, tx)
  {
    var sigs, n, cursor, accts, m := CountsOf(bytes);
    sigCount, acctCount := bytes[..n], bytes[cursor..][..m];
    tx := Assemble(bytes, n, sigs, cursor, m, accts);
  }

  lemma DecodeOwnBytes(bytes: Bytes, v: nat, n: nat)
    requires Decode(bytes) == Some((v, n))
    ensures Decode(bytes[..n]) == Some((v, n)) && v <= U16_MAX
  {
    assert bytes == bytes[..n] + bytes[n..];
    DecodePrefix(bytes[..n], bytes[n..]);
  }

  lemma Reassemble(bytes: Bytes, tx: Tx, sigCount: Bytes, acctCount: Bytes,
                   a: nat, b: nat, c: nat, d: nat, e: nat, f: nat)
    requires a <= b <= c <= d <= e <= f && f + HASH_LENGTH <= |bytes|
    requires sigCount == bytes[..a] && Flatten(tx.signatures) == bytes[a..][..b - a]
    requires VersionBytes(tx) == bytes[b..c] && tx.header == bytes[c..d]
    requires acctCount == bytes[d..][..e - d] && Flatten(tx.accounts) == bytes[e..][..f - e]
    requires tx.blockhash == bytes[f..f + HASH_LENGTH] && tx.rest == bytes[f + HASH_LENGTH..]
    ensures LaidOut(bytes, sigCount, acctCount, tx)
  {
    var g := f + HASH_LENGTH;
    JoinFront(bytes, tx, sigCount, a, b, c, d);
    JoinNext(bytes, d, e);
    JoinNext(bytes, e, f);
    Join(bytes, f, g);
    Join(bytes, g, |bytes|);
  }

  lemma JoinFront(bytes: Bytes, tx: Tx, sigCount: Bytes, a: nat, b: nat, c: nat, d: nat)
    requires a <= b <= c <= d <= |bytes|
    requires sigCount == bytes[..a] && Flatten(tx.signatures) == bytes[a..][..b - a]
    requires VersionBytes(tx) == bytes[b..c] && tx.header == bytes[c..d]
    ensures sigCount + Flatten(tx.signatures) + VersionBytes(tx) + tx.header == bytes[..d]
  {
    JoinNext(bytes, a, b);
    Join(bytes, b, c);
    Join(bytes, c, d);
  }

  lemma Join(bytes: Bytes, i: nat, j: nat)
    requires i <= j <= |bytes|
    ensures bytes[..i] + bytes[i..j] == bytes[..j]
    ensures j == |bytes| ==> bytes[..i] + bytes[i..] == bytes
  {}

  lemma JoinNext(bytes: Bytes, i: nat, j: nat)
    requires i <= j <= |bytes|
    ensures bytes[..i] + bytes[i..][..j - i] == bytes[..j]
  {}
}
