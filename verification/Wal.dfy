/** The write-ahead log manager (services/node-agent/src/storage/wal.rs): opening, appending, reading, and the file
    cursor. */
module Wal {
  import opened Prelude
  import opened Bytes
  import opened LogFormat

  /** The log file's contents, the file cursor and the LSN of the next record. */
  datatype WalState = WalState(bytes: seq<byte>, pos: nat, nextLsn: nat)

  function MaxLsn(rs: seq<LogRecord>): nat {
    if rs == [] then 0
    else var m := MaxLsn(rs[..|rs| - 1]); if rs[|rs| - 1].lsn > m then rs[|rs| - 1].lsn else m
  }

  /** The state after opening a log file: a tail that stopped the scan with an error is truncated, an "EOF" tail is not.
      */
  function Opened(lib: Lib, bytes: seq<byte>): WalState {
    var s := Scan(lib, bytes);
    WalState(if s.corrupt then bytes[..s.validBytes] else bytes, s.validBytes, MaxLsn(s.records) + 1)
  }

  /** Reading the whole log leaves the cursor at the end of the file, stale tail included. */
  function AfterReadAll(w: WalState): WalState {
    w.(pos := |w.bytes|)
  }

  function Appended(lib: Lib, w: WalState, op: OpType, key: Key, value: seq<byte>): WalState
    requires w.nextLsn < 0x1_0000_0000_0000_0000
  {
    WalState(Overwrite(w.bytes, w.pos, Serialize(NewRecord(lib, w.nextLsn, op, key, value))),
             w.pos + 21 + |key| + |value|, w.nextLsn + 1)
  }

  class WalManager {
    const lib: Lib
    var bytes: seq<byte>
    var pos: nat
    var nextLsn: nat

    function State(): WalState
      reads this
    {
      WalState(bytes, pos, nextLsn)
    }

    /** The cursor never leaves the file, so writes leave no gap. */
    predicate Valid()
      reads this
    {
      pos <= |bytes|
    }

    constructor Open(lib: Lib, disk: seq<byte>)
      ensures Valid() && this.lib == lib
      ensures State() == Opened(lib, disk)
    {
      hide Deserialize, Scan, ScannedUpTo;
      this.lib := lib;
      this.bytes := disk;
      this.pos := 0;
      this.nextLsn := 1;
      new;
      var maxLsn, validBytes := 0, 0;
      ghost var done: seq<LogRecord> := [];
      ScanStart(lib, disk);
      while true
        invariant bytes == disk && pos == validBytes <= |disk|
        invariant maxLsn == MaxLsn(done)
        invariant ScannedUpTo(lib, disk, pos, done)
        decreases |disk| - pos
      {
        ghost var start := pos;
        var parsed := ReadRecord();
        match parsed {
          case Eof =>
            ScanEnd(lib, disk, start, done);
            break;
          case Corrupt =>
            ScanEnd(lib, disk, start, done);
            bytes := bytes[..validBytes];
            break;
          case Ok(rec, n) =>
            ScanNext(lib, disk, start, done, rec, n);
            assert (done + [rec])[..|done|] == done;
            done := done + [rec];
            if rec.lsn > maxLsn { maxLsn := rec.lsn; }
            validBytes := pos;
        }
      }
      pos := validBytes;
      nextLsn := maxLsn + 1;
    }

    /** `read_exact`: on a short read the cursor still moves to the end of the file. */
    method ReadExact(n: nat) returns (buf: Option<seq<byte>>)
      requires Valid()
      modifies this`pos
      ensures Valid()
      ensures buf.Some? <==> old(pos) + n <= |bytes|
      ensures buf.Some? ==> buf.value == bytes[old(pos)..old(pos) + n] && pos == old(pos) + n
      ensures buf.None? ==> pos == |bytes|
    {
      if pos + n <= |bytes| {
        buf := Some(bytes[pos..pos + n]);
        pos := pos + n;
      } else {
        buf := None;
        pos := |bytes|;
      }
    }

    /** Reads a 32-bit length, then that many bytes. */
    method ReadBlock() returns (b: Option<seq<byte>>)
      requires Valid()
      modifies this`pos
      ensures Valid()
      ensures b == Block(bytes[old(pos)..])
      ensures b.Some? ==> pos == old(pos) + 4 + |b.value|
    {
      ghost var s := bytes[pos..];
      var lenBuf := ReadExact(4);
      if lenBuf.None? { return None; }
      assert lenBuf.value == s[..4];
      var len := FromBigEndian(lenBuf.value);
      b := ReadExact(len);
      assert b.Some? ==> b.value == s[4..4 + len];
    }

    /** `LogRecord::deserialize` reading field by field from the cursor. */
    method ReadRecord() returns (p: Parsed)
      requires Valid()
      modifies this`pos
      ensures Valid()
      ensures p == Deserialize(lib, bytes[old(pos)..])
      ensures p.Ok? ==> pos == old(pos) + p.length
      ensures p.Eof? ==> pos == |bytes|
    {
      hide FromBigEndian, ValidUtf8, Block, LogRecord.ChecksumOk;
      ghost var start, s := pos, bytes[pos..];
      var lsnBuf := ReadExact(8);
      if lsnBuf.None? { return Eof; }
      var opBuf := ReadExact(1);
      if opBuf.None? { return Corrupt; }
      assert opBuf.value[0] == s[8];
      var op := OpFromCode(opBuf.value[0]);
      if op.None? { return Corrupt; }
      var sumBuf := ReadExact(4);
      if sumBuf.None? { return Corrupt; }
      assert lsnBuf.value == s[..8] && sumBuf.value == s[9..13];
      assert bytes[pos..] == s[13..];
      var key := ReadBlock();
      if key.None? || !ValidUtf8(key.value) { return Corrupt; }
      assert bytes[pos..] == s[17 + |key.value|..];
      var value := ReadBlock();
      if value.None? { return Corrupt; }
      Pow256Values();
      FromBigEndianBound(lsnBuf.value);
      FromBigEndianBound(sumBuf.value);
      var rec := LogRecord(FromBigEndian(lsnBuf.value), op.value, key.value, value.value, FromBigEndian(sumBuf.value));
      if !rec.ChecksumOk(lib) { return Corrupt; }
      return Ok(rec, 21 + |key.value| + |value.value|);
    }

    method Append(op: OpType, key: Key, value: seq<byte>) returns (lsn: u64)
      requires Valid() && nextLsn < 0x1_0000_0000_0000_0000
      modifies this
      ensures Valid() && lsn == old(nextLsn)
      ensures State() == Appended(lib, old(State()), op, key, value)
    {
      lsn := nextLsn;
      nextLsn := nextLsn + 1;
      var record := NewRecord(lib, lsn, op, key, value);
      var buf := Serialize(record);
      SerializedLength(record);
      bytes := Overwrite(bytes, pos, buf);
      pos := pos + |buf|;
    }

    /** An error part-way leaves the cursor wherever the failed read stopped; callers give up on the log then. */
    method ReadAll() returns (records: Option<seq<LogRecord>>)
      requires Valid()
      modifies this`pos
      ensures Valid()
      ensures records == var s := Scan(lib, bytes); if s.corrupt then None else Some(s.records)
      ensures records.Some? ==> State() == AfterReadAll(old(State()))
    {
      hide Deserialize, Scan, ScannedUpTo;
      var found: seq<LogRecord> := [];
      pos := 0;
      ScanStart(lib, bytes);
      while true
        invariant Valid()
        invariant ScannedUpTo(lib, bytes, pos, found)
        decreases |bytes| - pos
      {
        ghost var start := pos;
        var parsed := ReadRecord();
        match parsed {
          case Eof =>
            ScanEnd(lib, bytes, start, found);
            return Some(found);
          case Corrupt =>
            ScanEnd(lib, bytes, start, found);
            return None;
          case Ok(rec, n) =>
            ScanNext(lib, bytes, start, found, rec, n);
            found := found + [rec];
        }
      }
    }
  }

  // ---- Opening and the cursor ----

  /** Opening keeps exactly the whole records, and the reopened log always reads without an error. */
  lemma OpenedScans(lib: Lib, bytes: seq<byte>)
    ensures var s := Scan(lib, bytes);
      Scan(lib, Opened(lib, bytes).bytes) == Scanned(s.records, s.validBytes, false)
  {
    hide Scan, Encode;
    ScanSound(lib, bytes);
    ScanWholeLog(lib, Scan(lib, bytes).records);
  }

  lemma {:induction false} MaxLsnIsMax(rs: seq<LogRecord>)
    ensures forall r :: r in rs ==> r.lsn <= MaxLsn(rs)
    ensures if rs == [] then MaxLsn(rs) == 0 else exists r :: r in rs && r.lsn == MaxLsn(rs)
  {
    if rs != [] {
      var front, last := rs[..|rs| - 1], rs[|rs| - 1];
      MaxLsnIsMax(front);
      assert rs == front + [last] && last in rs;
      if front != [] && last.lsn <= MaxLsn(front) {
        var r :| r in front && r.lsn == MaxLsn(front);
        assert r in rs;
      }
    }
  }

  /** After opening any file, the next LSN is one more than the highest in the log, or 1, whatever order they are in. */
  lemma NextLsnIsFresh(lib: Lib, bytes: seq<byte>)
    ensures var rs, next := Scan(lib, bytes).records, Opened(lib, bytes).nextLsn;
      && (forall r :: r in rs ==> r.lsn < next)
      && if rs == [] then next == 1 else exists r :: r in rs && r.lsn + 1 == next
  {
    hide Scan, MaxLsn;
    MaxLsnIsMax(Scan(lib, bytes).records);
  }

  /** After `open` the cursor is the end of the last valid record, and the next append covers any stale tail: the file
      is then exactly the old whole records and the new one. */
  lemma AppendAfterOpen(lib: Lib, bytes: seq<byte>, op: OpType, key: Key, value: seq<byte>)
    requires |key| < 0x1_0000_0000 && |value| < 0x1_0000_0000
    requires Opened(lib, bytes).nextLsn < 0x1_0000_0000_0000_0000
    ensures var s, w := Scan(lib, bytes), Opened(lib, bytes);
      var r, after := NewRecord(lib, w.nextLsn, op, key, value), Appended(lib, w, op, key, value);
      && w.pos == s.validBytes == |Encode(s.records)|
      && after.bytes == Encode(s.records + [r])
      && Scan(lib, after.bytes) == Scanned(s.records + [r], after.pos, false)
  {
    hide Scan, Encode, Serialize, MaxLsn, Overwrite, NewRecord, LogRecord.WellFormed;
    var s, w := Scan(lib, bytes), Opened(lib, bytes);
    var r := NewRecord(lib, w.nextLsn, op, key, value);
    ScanSound(lib, bytes);
    NewRecordFits(lib, w.nextLsn, op, key, value);
    SerializedLength(r);
    EncodeSnoc(s.records, r);
    OverwriteTail(w.bytes, w.pos, Serialize(r));
    assert w.bytes[..w.pos] == Encode(s.records);
    ScanWholeLog(lib, s.records + [r]);
  }

  /** After `open` and then `read_all`, on any file, the cursor is at the end of the last valid record if and only if
      the bytes left after that record were not 1 to 7. */
  lemma CursorAfterReadAll(lib: Lib, bytes: seq<byte>)
    ensures var s := Scan(lib, bytes);
      AfterReadAll(Opened(lib, bytes)).pos == s.validBytes <==> !(1 <= |bytes| - s.validBytes <= 7)
  {
    hide Scan, Encode, MaxLsn;
    ScanSound(lib, bytes);
  }

  lemma CodeByteBehind(stale: seq<byte>, r: LogRecord)
    requires 1 <= |stale| <= 7
    ensures var rest := stale + Serialize(r); |rest| > 21 && rest[8] == BigEndian(r.lsn, 8)[8 - |stale|]
  {
    hide BigEndian;
    SerializedLength(r);
  }

  lemma AppendedAtEnd(bytes: seq<byte>, valid: nat, buf: seq<byte>)
    requires valid <= |bytes|
    ensures Overwrite(bytes, |bytes|, buf) == bytes[..valid] + (bytes[valid..] + buf)
  {
    OverwriteTail(bytes, |bytes|, buf);
  }

  lemma BadCode(lib: Lib, s: seq<byte>)
    requires |s| > 8 && OpFromCode(s[8]).None?
    ensures Deserialize(lib, s).Corrupt?
  {
  }

  /** A tail of one byte shifts the lengths of a small record by 24 bits: one of the two is then read as too long. */
  lemma OneByteBehind(lib: Lib, stale: seq<byte>, r: LogRecord)
    requires |stale| == 1 && SmallRecord(r.key, r.value)
    ensures Deserialize(lib, stale + Serialize(r)).Corrupt?
  {
    hide BigEndian, FromBigEndian, Block, ValidUtf8;
    var rest := stale + Serialize(r);
    SerializedLength(r);
    var keyLen := BigEndian(|r.key|, 4);
    ShortLength(|r.key|);
    assert Serialize(r)[9..13] == BigEndian(r.checksum, 4) && Serialize(r)[13..17] == keyLen;
    assert rest[13..][..4] == [BigEndian(r.checksum, 4)[3], 0, 0, 0];
    assert rest[17..][0] == keyLen[3] == |r.key|;
    LongBlock(rest[13..]);
    LongBlock(rest[17..]);
  }

  lemma ShortLength(n: nat)
    requires n < 256
    ensures BigEndian(n, 4) == [0, 0, 0, n]
  {
    assert BigEndian(n, 4) == BigEndian(0, 3) + [n];
    assert BigEndian(0, 3) == BigEndian(0, 2) + [0];
    assert BigEndian(0, 2) == BigEndian(0, 1) + [0];
    assert BigEndian(0, 1) == BigEndian(0, 0) + [0];
  }

  /** A length whose first byte is not 0 is at least 2^24. */
  lemma LongBlock(s: seq<byte>)
    requires 4 <= |s| < 0x100_0000
    ensures s[0] > 0 ==> Block(s).None?
    ensures s[0] == s[1] == s[2] == s[3] == 0 ==> Block(s) == Some([])
  {
    var a, b, c, d := s[..1], s[..2], s[..3], s[..4];
    assert d[..3] == c && c[..2] == b && b[..1] == a && a[..0] == [];
    assert FromBigEndian(a) == s[0];
    assert FromBigEndian(b) == 256 * FromBigEndian(a) + s[1];
    assert FromBigEndian(c) == 256 * FromBigEndian(b) + s[2];
    assert FromBigEndian(d) == 256 * FromBigEndian(c) + s[3];
  }

  predicate SmallRecord(key: Key, value: seq<byte>) {
    1 <= |key| < 256 && |key| + |value| < 0xFF_0000
  }

  /** Behind a tail of `tail` stale bytes, a record with this LSN, key and value cannot be read: the byte of its LSN
      that stands where an operation code belongs is not one, or the tail is a single byte and the record is small. */
  predicate Unreadable(lsn: nat, tail: nat, key: Key, value: seq<byte>)
    requires 1 <= tail <= 7
  {
    OpFromCode(BigEndian(lsn, 8)[8 - tail]).None? || (tail == 1 && SmallRecord(key, value))
  }

  lemma RejectedBehind(lib: Lib, stale: seq<byte>, r: LogRecord)
    requires 1 <= |stale| <= 7 && Unreadable(r.lsn, |stale|, r.key, r.value)
    ensures Deserialize(lib, stale + Serialize(r)).Corrupt?
  {
    hide BigEndian, Deserialize, Serialize;
    if OpFromCode(BigEndian(r.lsn, 8)[8 - |stale|]).None? {
      CodeByteBehind(stale, r);
      BadCode(lib, stale + Serialize(r));
    } else {
      OneByteBehind(lib, stale, r);
    }
  }

  /** 1 to 7 bytes follow the last whole record: "EOF" to the scan, so `open` keeps them and `read_all` skips past them.
      */
  predicate StaleTail(lib: Lib, bytes: seq<byte>) {
    1 <= |bytes| - Scan(lib, bytes).validBytes <= 7
  }

  /** A record appended behind a stale tail is read from the wrong offset, and the next open drops it. */
  lemma AppendBehindStaleTailIsLost(lib: Lib, w: WalState, op: OpType, key: Key, value: seq<byte>)
    requires w.pos == |w.bytes| && w.nextLsn < 0x1_0000_0000_0000_0000
    requires StaleTail(lib, w.bytes) && Unreadable(w.nextLsn, |w.bytes| - Scan(lib, w.bytes).validBytes, key, value)
    ensures var s := Scan(lib, w.bytes);
      Scan(lib, Appended(lib, w, op, key, value).bytes) == Scanned(s.records, s.validBytes, true)
  {
    hide Scan, Encode, FromBigEndian, BigEndian, Serialize, Deserialize, Overwrite,
         NewRecord, LogRecord.WellFormed, Unreadable;
    var s, r := Scan(lib, w.bytes), NewRecord(lib, w.nextLsn, op, key, value);
    var stale := w.bytes[s.validBytes..];
    var rest := stale + Serialize(r);
    ScanSound(lib, w.bytes);
    AppendedAtEnd(w.bytes, s.validBytes, Serialize(r));
    RejectedBehind(lib, stale, r);
    ScanStop(lib, rest);
    ScanEncoded(lib, s.records, rest);
    assert s.records + [] == s.records;
  }

  /** The leading seven bytes of an LSN below 256 are zero, so every stale tail of 2 to 7 bytes loses the next record.
      */
  lemma SmallLsnBytes(lsn: nat, i: nat)
    requires lsn < 256 && i < 7
    ensures BigEndian(lsn, 8)[i] == 0
  {
    ZeroBytes(7);
  }

  lemma {:induction false} ZeroBytes(width: nat)
    ensures forall i :: 0 <= i < width ==> BigEndian(0, width)[i] == 0
  {
    if width > 0 { ZeroBytes(width - 1); }
  }

  // ---- Whole logs ----

  /** LSNs are exactly 1, 2, 3, ... */
  ghost predicate Sequential(rs: seq<LogRecord>) {
    forall i :: 0 <= i < |rs| ==> rs[i].lsn == i + 1
  }

  /** The log file is exactly these records, and the cursor is at its end. */
  ghost predicate WholeLog(w: WalState, log: seq<LogRecord>) {
    w == WalState(Encode(log), |Encode(log)|, |log| + 1)
  }

  function LogAppend(lib: Lib, log: seq<LogRecord>, op: OpType, key: Key, value: seq<byte>): seq<LogRecord>
    requires |log| + 1 < 0x1_0000_0000_0000_0000
  {
    log + [NewRecord(lib, |log| + 1, op, key, value)]
  }

  lemma {:induction false} SequentialMax(rs: seq<LogRecord>)
    requires Sequential(rs)
    ensures MaxLsn(rs) == |rs|
  {
    if rs != [] { SequentialMax(rs[..|rs| - 1]); }
  }

  lemma NewRecordFits(lib: Lib, lsn: u64, op: OpType, key: Key, value: seq<byte>)
    requires |key| < 0x1_0000_0000 && |value| < 0x1_0000_0000
    ensures NewRecord(lib, lsn, op, key, value).WellFormed(lib)
  {
  }

  /** Appending at the end of a whole log. */
  lemma AppendWhole(lib: Lib, w: WalState, log: seq<LogRecord>, r: LogRecord)
    requires AllWellFormed(lib, log) && r.WellFormed(lib)
    requires w.bytes == Encode(log) && w.pos == |w.bytes|
    ensures Overwrite(w.bytes, w.pos, Serialize(r)) == Encode(log + [r])
    ensures Scan(lib, Encode(log + [r])) == Scanned(log + [r], |Encode(log + [r])|, false)
  {
    hide Scan, Encode, Serialize, LogRecord.WellFormed;
    EncodeSnoc(log, r);
    ScanWholeLog(lib, log + [r]);
  }

  /** Appending to a whole sequential log keeps it whole and sequential: the records are the old ones and the new one.
      */
  lemma AppendKeepsLog(lib: Lib, w: WalState, log: seq<LogRecord>, op: OpType, k: Key, v: seq<byte>)
    requires w.nextLsn < 0x1_0000_0000_0000_0000 && |k| < 0x1_0000_0000 && |v| < 0x1_0000_0000
    requires WholeLog(w, log) && Sequential(log) && AllWellFormed(lib, log)
    ensures var after := LogAppend(lib, log, op, k, v);
      && Sequential(after) && AllWellFormed(lib, after)
      && WholeLog(Appended(lib, w, op, k, v), after)
      && Scan(lib, Appended(lib, w, op, k, v).bytes) == Scanned(after, |Encode(after)|, false)
  {
    hide Scan, Encode, Serialize, LogRecord.WellFormed, Overwrite;
    var r := NewRecord(lib, w.nextLsn, op, k, v);
    NewRecordFits(lib, w.nextLsn, op, k, v);
    SerializedLength(r);
    AppendWhole(lib, w, log, r);
    EncodeSnoc(log, r);
  }
}
