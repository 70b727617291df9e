/** Reading a classic libpcap capture, of either byte order, and the writer it inverts. */
module Pcap {
  import opened Common

  const HEADER := 24
  const RECORD_HEADER := 16
  const WORD_LIMIT := 0x1_0000_0000

  datatype Order = Little | Big

  type Word = n: nat | n < WORD_LIMIT

  function Word4(b0: nat, b1: nat, b2: nat, b3: nat): nat {
    b0 + 0x100 * b1 + 0x1_0000 * b2 + 0x100_0000 * b3
  }

  function WordAt(order: Order, b: Bytes): (n: Word)
    requires |b| == 4
  {
    match order
    case Little => Word4(b[0], b[1], b[2], b[3])
    case Big => Word4(b[3], b[2], b[1], b[0])
  }

  function WordBytes(order: Order, n: Word): (b: Bytes)
    ensures |b| == 4
  {
    var b0, b1, b2, b3 := n % 0x100, n / 0x100 % 0x100, n / 0x1_0000 % 0x100, n / 0x100_0000;
    match order
    case Little => [b0, b1, b2, b3]
    case Big => [b3, b2, b1, b0]
  }

  lemma WordRoundTrip(order: Order, n: Word)
    ensures WordAt(order, WordBytes(order, n)) == n
  {
    assert n / 0x100 / 0x100 == n / 0x1_0000 && n / 0x1_0000 / 0x100 == n / 0x100_0000;
  }

  lemma DigitsOfWord(b0: nat, b1: nat, b2: nat, b3: nat)
    requires b0 < 0x100 && b1 < 0x100 && b2 < 0x100 && b3 < 0x100
    ensures var n := Word4(b0, b1, b2, b3);
            n < WORD_LIMIT && n % 0x100 == b0 && n / 0x100 % 0x100 == b1 && n / 0x1_0000 % 0x100 == b2
            && n / 0x100_0000 == b3
  {
    var n, q, p := Word4(b0, b1, b2, b3), b1 + 0x100 * b2 + 0x1_0000 * b3, b2 + 0x100 * b3;
    assert n == b0 + 0x100 * q && q == b1 + 0x100 * p;
    assert n / 0x100 == q && n / 0x1_0000 == p;
  }

  lemma BytesRoundTrip(order: Order, b: Bytes)
    requires |b| == 4
    ensures WordBytes(order, WordAt(order, b)) == b
  {
    if order.Little? {
      DigitsOfWord(b[0], b[1], b[2], b[3]);
    } else {
      DigitsOfWord(b[3], b[2], b[1], b[0]);
    }
  }

  function MagicBytes(order: Order, nano: bool): (b: Bytes)
    ensures |b| == 4
  {
    match (order, nano)
    case (Little, false) => [0xd4, 0xc3, 0xb2, 0xa1]
    case (Big, false) => [0xa1, 0xb2, 0xc3, 0xd4]
    case (Little, true) => [0x4d, 0x3c, 0xb2, 0xa1]
    case (Big, true) => [0xa1, 0xb2, 0x3c, 0x4d]
  }

  function OrderOf(magic: Bytes): Option<Order> {
    if magic == [0xd4, 0xc3, 0xb2, 0xa1] || magic == [0x4d, 0x3c, 0xb2, 0xa1] then Some(Little)
    else if magic == [0xa1, 0xb2, 0xc3, 0xd4] || magic == [0xa1, 0xb2, 0x3c, 0x4d] then Some(Big)
    else None
  }

  datatype Flaw =
    | ShorterThanHeader
    | BadMagic
    | TruncatedHeader(at: nat)
    | TruncatedRecord(at: nat, claimed: nat, left: nat)

  datatype Frames = Frames(frames: seq<Bytes>) | Bad(flaw: Flaw)

  datatype Capture = Capture(linktype: nat, frames: seq<Bytes>) | Refused(flaw: Flaw)

  /** The records in `b`, which starts `at` bytes into the file. */
  function FramesIn(order: Order, b: Bytes, at: nat): Frames {
    if b == [] then Frames([])
    else if |b| < RECORD_HEADER then Bad(TruncatedHeader(at))
    else
      var claimed := WordAt(order, b[8..12]);
      if RECORD_HEADER + claimed > |b| then Bad(TruncatedRecord(at, claimed, |b| - RECORD_HEADER))
      else
        Prepend(b[RECORD_HEADER..RECORD_HEADER + claimed],
                FramesIn(order, b[RECORD_HEADER + claimed..], at + RECORD_HEADER + claimed))
  }

  function Prepend(frame: Bytes, rest: Frames): Frames {
    if rest.Bad? then rest else Frames([frame] + rest.frames)
  }

  function Read(data: Bytes): Capture {
    if |data| < HEADER then Refused(ShorterThanHeader)
    else if OrderOf(data[..4]).None? then Refused(BadMagic)
    else
      var order := OrderOf(data[..4]).value;
      var read := FramesIn(order, data[HEADER..], HEADER);
      if read.Bad? then Refused(read.flaw)
      else Capture(WordAt(order, data[20..24]) % 0x1_0000, read.frames)
  }

  /** The loop over the records: each one's length is taken from the file and checked against its end. */
  method ReadFrames(order: Order, data: Bytes) returns (read: Frames)
    requires HEADER <= |data|
    ensures read == FramesIn(order, data[HEADER..], HEADER)
  {
    var frames: seq<Bytes> := [];
    var off := HEADER;
    ghost var whole := FramesIn(order, data[HEADER..], HEADER);
    AfterNone(whole);
    while off < |data|
      invariant HEADER <= off <= |data|
      invariant whole == After(frames, FramesIn(order, data[off..], off))
    {
      if off + RECORD_HEADER > |data| {
        RestHasFrame(order, data, off);
        return Bad(TruncatedHeader(off));
      }
      var claimed := WordAt(order, data[off + 8..off + 12]);
      var start := off + RECORD_HEADER;
      var end := start + claimed;
      OneFrameFurther(order, data, off, frames, start, end);
      if end > |data| {
        return Bad(TruncatedRecord(off, claimed, |data| - start));
      }
      frames := frames + [data[start..end]];
      off := end;
    }
    assert data[off..] == [];
    read := Frames(frames);
    AfterLast(frames);
  }

  method ReadPcap(data: Bytes) returns (capture: Capture)
    ensures capture == Read(data)
  {
    if |data| < HEADER {
      return Refused(ShorterThanHeader);
    }
    var found := OrderOf(data[..4]);
    if found.None? {
      return Refused(BadMagic);
    }
    var order := found.value;
    var linktype := WordAt(order, data[20..24]) % 0x1_0000;
    var read := ReadFrames(order, data);
    capture := if read.Bad? then Refused(read.flaw) else Capture(linktype, read.frames);
  }

  /** What stands at an offset, told from the whole file. */
  lemma RestHasFrame(order: Order, data: Bytes, off: nat)
    requires off < |data|
    ensures FramesIn(order, data[off..], off) ==
              if off + RECORD_HEADER > |data| then Bad(TruncatedHeader(off))
              else
                var claimed, start := WordAt(order, data[off + 8..off + 12]), off + RECORD_HEADER;
                if start + claimed > |data| then Bad(TruncatedRecord(off, claimed, |data| - start))
                else Prepend(data[start..start + claimed], FramesIn(order, data[start + claimed..], start + claimed))
  {
    var b, start := data[off..], off + RECORD_HEADER;
    if start <= |data| {
      assert b[8..12] == data[off + 8..off + 12];
      var claimed := WordAt(order, b[8..12]);
      if start + claimed <= |data| {
        assert b[RECORD_HEADER..RECORD_HEADER + claimed] == data[start..start + claimed];
        assert b[RECORD_HEADER + claimed..] == data[start + claimed..];
      }
    }
  }

  function After(frames: seq<Bytes>, rest: Frames): Frames {
    if rest.Bad? then rest else Frames(frames + rest.frames)
  }

  lemma AfterNone(rest: Frames)
    ensures After([], rest) == rest
  {
  }

  lemma AfterLast(frames: seq<Bytes>)
    ensures After(frames, Frames([])) == Frames(frames)
  {
  }

  lemma OneFrameFurther(order: Order, data: Bytes, off: nat, frames: seq<Bytes>, start: nat, end: nat)
    requires start == off + RECORD_HEADER <= |data| && end == start + WordAt(order, data[off + 8..off + 12])
    ensures After(frames, FramesIn(order, data[off..], off)) ==
              if end > |data| then Bad(TruncatedRecord(off, end - start, |data| - start))
              else After(frames + [data[start..end]], FramesIn(order, data[end..], end))
  {
    RestHasFrame(order, data, off);
    if end <= |data| {
      AfterPrepend(frames, data[start..end], FramesIn(order, data[end..], end));
    }
  }

  lemma AfterPrepend(frames: seq<Bytes>, frame: Bytes, rest: Frames)
    ensures After(frames, Prepend(frame, rest)) == After(frames + [frame], rest)
  {
    if rest.Frames? {
      assert frames + ([frame] + rest.frames) == frames + [frame] + rest.frames;
    }
  }

  // -- the writer -----------------------------------------------------------------------------------

  /** A record as it stands in a file; the time stamp and the length on the wire are not read. */
  datatype Record = Record(stamp: Bytes, wireLength: Bytes, frame: Bytes) {
    predicate Valid() {
      |stamp| == 8 && |wireLength| == 4 && |frame| < WORD_LIMIT
    }
  }

  predicate AllValid(records: seq<Record>) {
    forall i :: 0 <= i < |records| ==> records[i].Valid()
  }

  function RecordBytes(order: Order, r: Record): (b: Bytes)
    requires r.Valid()
    ensures |b| == RECORD_HEADER + |r.frame|
  {
    r.stamp + WordBytes(order, |r.frame|) + r.wireLength + r.frame
  }

  function RecordsBytes(order: Order, records: seq<Record>): Bytes
    requires AllValid(records)
  {
    if records == [] then [] else RecordBytes(order, records[0]) + RecordsBytes(order, records[1..])
  }

  function FramesOf(records: seq<Record>): seq<Bytes> {
    seq(|records|, i requires 0 <= i < |records| => records[i].frame)
  }

  /** What comes before the records; `middle` (version, zone, accuracy, snap length) is not read. */
  datatype Preamble = Preamble(order: Order, nano: bool, middle: Bytes, network: Word) {
    predicate Valid() {
      |middle| == 16
    }
  }

  function PreambleBytes(p: Preamble): (b: Bytes)
    requires p.Valid()
    ensures |b| == HEADER
  {
    MagicBytes(p.order, p.nano) + p.middle + WordBytes(p.order, p.network)
  }

  function FileBytes(p: Preamble, records: seq<Record>): Bytes
    requires p.Valid() && AllValid(records)
  {
    PreambleBytes(p) + RecordsBytes(p.order, records)
  }

  // -- reading inverts writing ------------------------------------------------------------------------

  /** Where a written record says how long it is, and where its frame stands. */
  lemma RecordLayout(order: Order, r: Record, after: Bytes)
    requires r.Valid()
    ensures var b, end := RecordBytes(order, r) + after, RECORD_HEADER + |r.frame|;
            |b| == end + |after| && WordAt(order, b[8..12]) == |r.frame| && b[RECORD_HEADER..end] == r.frame
            && b[end..] == after
  {
    var b := RecordBytes(order, r) + after;
    assert b[8..12] == WordBytes(order, |r.frame|);
    WordRoundTrip(order, |r.frame|);
  }

  /** The reader standing at a written record reads it and goes on behind it. */
  lemma OneRecord(order: Order, r: Record, after: Bytes, at: nat)
    requires r.Valid()
    ensures FramesIn(order, RecordBytes(order, r) + after, at)
            == Prepend(r.frame, FramesIn(order, after, at + RECORD_HEADER + |r.frame|))
  {
    RecordLayout(order, r, after);
  }

  lemma FramesOfFirst(records: seq<Record>)
    requires records != []
    ensures FramesOf(records) == [records[0].frame] + FramesOf(records[1..])
  {
  }

  lemma FirstIsPrepended(order: Order, records: seq<Record>, rest: Bytes, at: nat)
    requires records != [] && records[0].Valid()
    requires FramesIn(order, rest, at + RECORD_HEADER + |records[0].frame|) == Frames(FramesOf(records[1..]))
    ensures FramesIn(order, RecordBytes(order, records[0]) + rest, at) == Frames(FramesOf(records))
  {
    OneRecord(order, records[0], rest, at);
    FramesOfFirst(records);
  }

  lemma {:induction false} ReadsWrittenRecords(order: Order, records: seq<Record>, at: nat)
    requires AllValid(records)
    ensures FramesIn(order, RecordsBytes(order, records), at) == Frames(FramesOf(records))
    decreases |records|
  {
    if records != [] {
      FirstOf(order, records);
      ReadsWrittenRecords(order, records[1..], at + RECORD_HEADER + |records[0].frame|);
      FirstIsPrepended(order, records, RecordsBytes(order, records[1..]), at);
    }
  }

  lemma PreambleIsRead(p: Preamble, after: Bytes)
    requires p.Valid()
    ensures var data := PreambleBytes(p) + after;
            OrderOf(data[..4]) == Some(p.order) && WordAt(p.order, data[20..24]) == p.network
            && data[HEADER..] == after
  {
    var data := PreambleBytes(p) + after;
    assert data[..4] == MagicBytes(p.order, p.nano);
    assert data[20..24] == WordBytes(p.order, p.network);
    WordRoundTrip(p.order, p.network);
  }

  /** Whatever is written, in either byte order, is read back: every frame, whole and in order, and the low
      sixteen bits of the link type. */
  lemma ReadInvertsWrite(p: Preamble, records: seq<Record>)
    requires p.Valid() && AllValid(records)
    ensures Read(FileBytes(p, records)) == Capture(p.network % 0x1_0000, FramesOf(records))
  {
    PreambleIsRead(p, RecordsBytes(p.order, records));
    ReadsWrittenRecords(p.order, records, HEADER);
  }

  /** The record at the front of these bytes. */
  function RecordAt(order: Order, b: Bytes): (r: Record)
    requires RECORD_HEADER <= |b| && RECORD_HEADER + WordAt(order, b[8..12]) <= |b|
    ensures r.Valid() && |r.frame| == WordAt(order, b[8..12])
  {
    Record(b[..8], b[12..RECORD_HEADER], b[RECORD_HEADER..RECORD_HEADER + WordAt(order, b[8..12])])
  }

  lemma RecordAtIsThere(order: Order, b: Bytes)
    requires RECORD_HEADER <= |b| && RECORD_HEADER + WordAt(order, b[8..12]) <= |b|
    ensures b == RecordBytes(order, RecordAt(order, b)) + b[RECORD_HEADER + WordAt(order, b[8..12])..]
  {
    BytesRoundTrip(order, b[8..12]);
  }

  lemma {:induction false} WhatIsReadWasWritten(order: Order, b: Bytes, at: nat) returns (records: seq<Record>)
    requires FramesIn(order, b, at).Frames?
    ensures AllValid(records) && b == RecordsBytes(order, records)
    decreases |b|
  {
    records := [];
    if b != [] {
      var r := RecordAt(order, b);
      RecordAtIsThere(order, b);
      var end := RECORD_HEADER + |r.frame|;
      var later := WhatIsReadWasWritten(order, b[end..], at + end);
      records := [r] + later;
      assert records[1..] == later;
    }
  }

  lemma PreambleWasWritten(data: Bytes) returns (p: Preamble)
    requires |data| >= HEADER && OrderOf(data[..4]).Some?
    ensures p.Valid() && data[..HEADER] == PreambleBytes(p) && OrderOf(data[..4]) == Some(p.order)
  {
    var order := OrderOf(data[..4]).value;
    p := Preamble(order, data[..4] == MagicBytes(order, true), data[4..20], WordAt(order, data[20..24]));
    BytesRoundTrip(order, data[20..24]);
    assert data[..4] == MagicBytes(order, p.nano);
    assert data[..HEADER] == data[..4] + data[4..20] + data[20..24];
  }

  lemma CaptureWasWritten(data: Bytes) returns (p: Preamble, records: seq<Record>)
    requires Read(data).Capture?
    ensures p.Valid() && AllValid(records) && data == FileBytes(p, records)
  {
    p := PreambleWasWritten(data);
    records := WhatIsReadWasWritten(p.order, data[HEADER..], HEADER);
    assert data == data[..HEADER] + data[HEADER..];
  }

  /** Nothing else is read: a capture is accepted exactly when some preamble and some whole records were
      written one after the other. */
  lemma AcceptsExactlyWhatIsWritten(data: Bytes)
    ensures Read(data).Capture? <==>
              exists p: Preamble, records :: p.Valid() && AllValid(records) && data == FileBytes(p, records)
  {
    if Read(data).Capture? {
      var p, records := CaptureWasWritten(data);
    }
    forall p: Preamble, records | p.Valid() && AllValid(records) && data == FileBytes(p, records)
      ensures Read(data).Capture?
    {
      ReadInvertsWrite(p, records);
    }
  }

  // -- a capture that was cut -------------------------------------------------------------------------

  /** `n` bytes of records end exactly behind the first `k` of them. */
  predicate EndsBehind(order: Order, records: seq<Record>, n: nat, k: nat)
    requires AllValid(records)
  {
    k <= |records| && n == |RecordsBytes(order, records[..k])|
  }

  lemma {:induction false} BytesBehind(order: Order, records: seq<Record>, k: nat)
    requires AllValid(records) && k <= |records|
    ensures RecordsBytes(order, records[..k]) <= RecordsBytes(order, records)
    ensures 0 < k ==> |RecordsBytes(order, records[..k])|
                      == RECORD_HEADER + |records[0].frame| + |RecordsBytes(order, records[1..][..k - 1])|
  {
    if k > 0 {
      assert records[..k][1..] == records[1..][..k - 1];
      BytesBehind(order, records[1..], k - 1);
    }
  }

  /** A cut inside a record is never taken for the end of the capture. */
  lemma CutInside(order: Order, r: Record, after: Bytes, n: nat, at: nat)
    requires r.Valid() && 0 < n < RECORD_HEADER + |r.frame|
    ensures FramesIn(order, (RecordBytes(order, r) + after)[..n], at).Bad?
  {
    RecordLayout(order, r, after);
    var b := RecordBytes(order, r) + after;
    if RECORD_HEADER <= n {
      assert b[..n][8..12] == b[8..12];
    }
  }

  lemma {:induction false} AcceptedCuts(order: Order, records: seq<Record>, n: nat, at: nat) returns (k: nat)
    requires AllValid(records) && n <= |RecordsBytes(order, records)|
    requires FramesIn(order, RecordsBytes(order, records)[..n], at).Frames?
    ensures EndsBehind(order, records, n, k)
    decreases |records|
  {
    if n == 0 {
      k := 0;
      assert records[..0] == [];
    } else {
      RestOfCut(order, records, n, at);
      var first := RECORD_HEADER + |records[0].frame|;
      var behind := AcceptedCuts(order, records[1..], n - first, at + first);
      EndsOneFurther(order, records, n, behind);
      k := behind + 1;
    }
  }

  lemma RestOfCut(order: Order, records: seq<Record>, n: nat, at: nat)
    requires AllValid(records) && 0 < n <= |RecordsBytes(order, records)|
    requires FramesIn(order, RecordsBytes(order, records)[..n], at).Frames?
    ensures records != [] && AllValid(records[1..]) && RECORD_HEADER + |records[0].frame| <= n
    ensures var left, later := n - RECORD_HEADER - |records[0].frame|, RecordsBytes(order, records[1..]);
            left <= |later| && FramesIn(order, later[..left], at + RECORD_HEADER + |records[0].frame|).Frames?
  {
    FirstOf(order, records);
    NotCutInside(order, records[0], RecordsBytes(order, records[1..]), n, at);
  }

  lemma FirstOf(order: Order, records: seq<Record>)
    requires AllValid(records)
    ensures if records == [] then RecordsBytes(order, records) == []
            else && records[0].Valid() && AllValid(records[1..])
                 && RecordsBytes(order, records) == RecordBytes(order, records[0]) + RecordsBytes(order, records[1..])
                 && |RecordBytes(order, records[0])| == RECORD_HEADER + |records[0].frame|
  {
  }

  lemma EndsOneFurther(order: Order, records: seq<Record>, n: nat, k: nat)
    requires records != [] && AllValid(records)
    requires RECORD_HEADER + |records[0].frame| <= n
    requires EndsBehind(order, records[1..], n - RECORD_HEADER - |records[0].frame|, k)
    ensures EndsBehind(order, records, n, k + 1)
  {
    BytesBehind(order, records, k + 1);
  }

  /** What is accepted is cut behind its first record. */
  lemma NotCutInside(order: Order, r: Record, later: Bytes, n: nat, at: nat)
    requires r.Valid() && 0 < n <= |RecordBytes(order, r) + later|
    requires FramesIn(order, (RecordBytes(order, r) + later)[..n], at).Frames?
    ensures var first := RECORD_HEADER + |r.frame|;
            first <= n && FramesIn(order, later[..n - first], at + first).Frames?
  {
    var first, whole := RECORD_HEADER + |r.frame|, RecordBytes(order, r);
    if n < first {
      CutInside(order, r, later, n, at);
      assert false;
    } else {
      assert (whole + later)[..n] == whole + later[..n - first];
      OneRecord(order, r, later[..n - first], at);
    }
  }

  /** A capture cut behind a record reads as the records before the cut: nothing in the file says that
      more were there. */
  lemma CutBehindARecord(p: Preamble, records: seq<Record>, k: nat)
    requires p.Valid() && AllValid(records) && k <= |records|
    ensures var n := HEADER + |RecordsBytes(p.order, records[..k])|;
            && n <= |FileBytes(p, records)|
            && Read(FileBytes(p, records)[..n]) == Capture(p.network % 0x1_0000, FramesOf(records[..k]))
  {
    var n := HEADER + |RecordsBytes(p.order, records[..k])|;
    BytesBehind(p.order, records, k);
    assert FileBytes(p, records)[..n] == FileBytes(p, records[..k]);
    ReadInvertsWrite(p, records[..k]);
  }

  /** A capture cut anywhere else is refused: in the preamble, in a record's header or in its frame. */
  lemma CutElsewhere(p: Preamble, records: seq<Record>, n: nat)
    requires p.Valid() && AllValid(records) && n <= |FileBytes(p, records)|
    requires forall k: nat :: k <= |records| ==> n != HEADER + |RecordsBytes(p.order, records[..k])|
    ensures Read(FileBytes(p, records)[..n]).Refused?
  {
    if n >= HEADER && Read(FileBytes(p, records)[..n]).Capture? {
      var data, rest := FileBytes(p, records), RecordsBytes(p.order, records)[..n - HEADER];
      assert data[..n] == PreambleBytes(p) + rest;
      PreambleIsRead(p, rest);
      var k := AcceptedCuts(p.order, records, n - HEADER, HEADER);
      assert false;
    }
  }

  // -- why a capture is refused -------------------------------------------------------------------------

  /** What is wrong with bytes that are no whole record, standing `at` bytes into the file. */
  ghost predicate Flawed(order: Order, tail: Bytes, at: nat, flaw: Flaw) {
    || (0 < |tail| < 16 && flaw == TruncatedHeader(at))
    || (|tail| >= 16 && |tail| - 16 < WordAt(order, tail[8..12])
        && flaw == TruncatedRecord(at, WordAt(order, tail[8..12]), |tail| - 16))
  }

  lemma FlawHere(order: Order, tail: Bytes, at: nat, flaw: Flaw)
    requires Flawed(order, tail, at, flaw)
    ensures FramesIn(order, tail, at) == Bad(flaw)
  {
  }

  lemma FlawBehindOne(order: Order, r: Record, rest: Bytes, at: nat, flaw: Flaw)
    requires r.Valid() && FramesIn(order, rest, at + RECORD_HEADER + |r.frame|) == Bad(flaw)
    ensures FramesIn(order, RecordBytes(order, r) + rest, at) == Bad(flaw)
  {
    OneRecord(order, r, rest, at);
  }

  lemma FirstAndRest(order: Order, records: seq<Record>, tail: Bytes)
    requires AllValid(records) && records != []
    ensures records[0].Valid() && AllValid(records[1..])
    ensures var later := RecordsBytes(order, records[1..]);
            && RecordsBytes(order, records) + tail == RecordBytes(order, records[0]) + (later + tail)
            && |RecordsBytes(order, records)| == RECORD_HEADER + |records[0].frame| + |later|
  {
    FirstOf(order, records);
    Regroup(RecordBytes(order, records[0]), RecordsBytes(order, records[1..]), tail);
  }

  lemma Regroup(a: Bytes, b: Bytes, c: Bytes)
    ensures a + b + c == a + (b + c)
  {
  }

  lemma {:induction false} FlawBehind(order: Order, records: seq<Record>, tail: Bytes, at: nat, here: nat, flaw: Flaw)
    requires AllValid(records) && here == at + |RecordsBytes(order, records)| && Flawed(order, tail, here, flaw)
    ensures FramesIn(order, RecordsBytes(order, records) + tail, at) == Bad(flaw)
    decreases |records|
  {
    if records == [] {
      assert [] + tail == tail;
      FlawHere(order, tail, at, flaw);
    } else {
      FirstAndRest(order, records, tail);
      FlawBehind(order, records[1..], tail, at + RECORD_HEADER + |records[0].frame|, here, flaw);
      FlawBehindOne(order, records[0], RecordsBytes(order, records[1..]) + tail, at, flaw);
    }
  }

  lemma BadBehindFirst(order: Order, b: Bytes, at: nat, flaw: Flaw) returns (r: Record)
    requires FramesIn(order, b, at) == Bad(flaw)
    requires RECORD_HEADER <= |b| && RECORD_HEADER + WordAt(order, b[8..12]) <= |b|
    ensures r.Valid() && RECORD_HEADER + |r.frame| <= |b|
    ensures var end := RECORD_HEADER + |r.frame|;
            b == RecordBytes(order, r) + b[end..] && FramesIn(order, b[end..], at + end) == Bad(flaw)
  {
    r := RecordAt(order, b);
    RecordAtIsThere(order, b);
  }

  lemma FlawHasReason(order: Order, b: Bytes, at: nat, flaw: Flaw)
    requires FramesIn(order, b, at) == Bad(flaw)
    requires |b| < RECORD_HEADER || RECORD_HEADER + WordAt(order, b[8..12]) > |b|
    ensures Flawed(order, b, at, flaw)
  {
  }

  lemma {:induction false} RefusedBehind(order: Order, b: Bytes, at: nat, flaw: Flaw)
    returns (records: seq<Record>, tail: Bytes)
    requires FramesIn(order, b, at) == Bad(flaw)
    ensures AllValid(records) && b == RecordsBytes(order, records) + tail
    ensures Flawed(order, tail, at + |RecordsBytes(order, records)|, flaw)
    decreases |b|
  {
    if |b| < RECORD_HEADER || RECORD_HEADER + WordAt(order, b[8..12]) > |b| {
      records, tail := [], b;
      FlawHasReason(order, b, at, flaw);
    } else {
      var r := BadBehindFirst(order, b, at, flaw);
      var end := RECORD_HEADER + |r.frame|;
      var later, last := RefusedBehind(order, b[end..], at + end, flaw);
      RecordInFront(order, r, later, last, b, end);
      records, tail := [r] + later, last;
    }
  }

  lemma RecordInFront(order: Order, r: Record, later: seq<Record>, tail: Bytes, b: Bytes, end: nat)
    requires r.Valid() && AllValid(later) && end == RECORD_HEADER + |r.frame| <= |b|
    requires b == RecordBytes(order, r) + b[end..] && b[end..] == RecordsBytes(order, later) + tail
    ensures AllValid([r] + later) && b == RecordsBytes(order, [r] + later) + tail
    ensures |RecordsBytes(order, [r] + later)| == end + |RecordsBytes(order, later)|
  {
    assert ([r] + later)[1..] == later;
  }

  ghost predicate MagicOf(data: Bytes, order: Order) {
    |data| >= 4 && (data[..4] == MagicBytes(order, false) || data[..4] == MagicBytes(order, true))
  }

  /** A capture is refused for one of four reasons: too short for a preamble, none of the four magic numbers, or
      some whole records and then, at the place named, a header cut short or a record longer than what is left. */
  lemma RefusedExactly(data: Bytes, flaw: Flaw)
    ensures Read(data) == Refused(flaw) <==>
              || (|data| < 24 && flaw == ShorterThanHeader)
              || (|data| >= 24 && flaw == BadMagic && !MagicOf(data, Little) && !MagicOf(data, Big))
              || exists p: Preamble, records, tail ::
                   && p.Valid() && AllValid(records) && data == FileBytes(p, records) + tail
                   && Flawed(p.order, tail, |FileBytes(p, records)|, flaw)
  {
    forall p: Preamble, records, tail
      | && p.Valid() && AllValid(records) && data == FileBytes(p, records) + tail
        && Flawed(p.order, tail, |FileBytes(p, records)|, flaw)
      ensures Read(data) == Refused(flaw)
    {
      assert data == PreambleBytes(p) + (RecordsBytes(p.order, records) + tail);
      PreambleIsRead(p, RecordsBytes(p.order, records) + tail);
      FlawBehind(p.order, records, tail, HEADER, |FileBytes(p, records)|, flaw);
    }
    if Read(data) == Refused(flaw) && |data| >= HEADER && OrderOf(data[..4]).Some? {
      var p, records, tail := RefusedWasWritten(data, flaw);
    }
  }

  lemma RefusedWasWritten(data: Bytes, flaw: Flaw) returns (p: Preamble, records: seq<Record>, tail: Bytes)
    requires |data| >= HEADER && OrderOf(data[..4]).Some? && Read(data) == Refused(flaw)
    ensures p.Valid() && AllValid(records) && data == FileBytes(p, records) + tail
    ensures Flawed(p.order, tail, |FileBytes(p, records)|, flaw)
  {
    p := PreambleWasWritten(data);
    records, tail := RefusedBehind(p.order, data[HEADER..], HEADER, flaw);
    PutTogether(data, PreambleBytes(p), RecordsBytes(p.order, records), tail);
  }

  lemma PutTogether(data: Bytes, a: Bytes, b: Bytes, c: Bytes)
    requires |data| >= HEADER && data[..HEADER] == a && data[HEADER..] == b + c
    ensures data == a + b + c
  {
    assert data == data[..HEADER] + data[HEADER..];
  }

  /** The two byte orders: the first of four bytes is worth least, or most; and the four magic numbers are two
      numbers, each in both orders. */
  lemma OrdersAndMagic(b0: Byte, b1: Byte, b2: Byte, b3: Byte)
    ensures WordAt(Little, [b0, b1, b2, b3]) == b0 + 256 * b1 + 65536 * b2 + 16777216 * b3
    ensures WordAt(Big, [b3, b2, b1, b0]) == b0 + 256 * b1 + 65536 * b2 + 16777216 * b3
    ensures forall order :: WordAt(order, MagicBytes(order, false)) == 0xa1b2c3d4
    ensures forall order :: WordAt(order, MagicBytes(order, true)) == 0xa1b23c4d
  {
  }
}
