/** The binary format of write-ahead log records (services/node-agent/src/storage/wal.rs). */
module LogFormat {
  import opened Prelude
  import opened Bytes

  type Key = k: seq<byte> | ValidUtf8(k) witness []

  /** Library functions the engine calls: CRC-32, and `String::from_utf8_lossy` on a value. Every result holds for all
      of them. */
  datatype Lib = Lib(crc: seq<byte> -> u32, utf8Lossy: seq<byte> -> seq<byte>)

  datatype OpType = Insert | Update | Delete | Checkpoint {
    function Code(): byte {
      match this
      case Insert => 1
      case Update => 2
      case Delete => 3
      case Checkpoint => 4
    }
  }

  function OpFromCode(b: byte): Option<OpType> {
    match b
    case 1 => Some(Insert)
    case 2 => Some(Update)
    case 3 => Some(Delete)
    case 4 => Some(Checkpoint)
    case _ => None
  }

  datatype LogRecord = LogRecord(lsn: u64, op: OpType, key: Key, value: seq<byte>, checksum: u32) {
    function ComputeChecksum(lib: Lib): u32 {
      lib.crc(BigEndian(lsn, 8) + [op.Code()] + BigEndian(|key|, 4) + key + BigEndian(|value|, 4) + value)
    }

    predicate ChecksumOk(lib: Lib) {
      checksum == ComputeChecksum(lib)
    }

    /** Both lengths survive the cast to `u32`. */
    predicate LengthsFit() {
      |key| < 0x1_0000_0000 && |value| < 0x1_0000_0000
    }

    predicate WellFormed(lib: Lib) {
      ChecksumOk(lib) && LengthsFit()
    }
  }

  function NewRecord(lib: Lib, lsn: u64, op: OpType, key: Key, value: seq<byte>): (r: LogRecord)
    ensures r.lsn == lsn && r.op == op && r.key == key && r.value == value
    ensures r.ChecksumOk(lib)
  {
    var r := LogRecord(lsn, op, key, value, 0);
    r.(checksum := r.ComputeChecksum(lib))
  }

  function Serialize(r: LogRecord): seq<byte> {
    BigEndian(r.lsn, 8) + [r.op.Code()] + BigEndian(r.checksum, 4) +
    BigEndian(|r.key|, 4) + r.key + BigEndian(|r.value|, 4) + r.value
  }

  /** What reading one record from the cursor yields: the record and its length, the "EOF" error, or any other error. */
  datatype Parsed = Ok(record: LogRecord, length: nat) | Eof | Corrupt

  /** Reads a 32-bit length and that many bytes from the front of `s`; `None` when `s` is too short. */
  function Block(s: seq<byte>): (b: Option<seq<byte>>)
    ensures b.Some? ==> |s| >= 4 + |b.value|
  {
    if |s| < 4 || |s| < 4 + FromBigEndian(s[..4]) then None else Some(s[4..4 + FromBigEndian(s[..4])])
  }

  /** Reads a record from the front of `s`. A tail shorter than the 8-byte LSN is "EOF", not an error. */
  function Deserialize(lib: Lib, s: seq<byte>): (p: Parsed)
    ensures p.Eof? <==> |s| < 8
    ensures p.Ok? ==> 21 <= p.length <= |s|
  {
    if |s| < 8 then Eof
    else if |s| < 13 || OpFromCode(s[8]).None? then Corrupt
    else
      var key := Block(s[13..]);
      if key.None? || !ValidUtf8(key.value) then Corrupt
      else
        var value := Block(s[17 + |key.value|..]);
        if value.None? then Corrupt
        else
          Pow256Values(); FromBigEndianBound(s[..8]); FromBigEndianBound(s[9..13]);
          var r := LogRecord(FromBigEndian(s[..8]), OpFromCode(s[8]).value,
                             key.value, value.value, FromBigEndian(s[9..13]));
          if r.ChecksumOk(lib) then Ok(r, 21 + |key.value| + |value.value|) else Corrupt
  }

  lemma SerializedLength(r: LogRecord)
    ensures |Serialize(r)| == 21 + |r.key| + |r.value|
  {
  }

  /** A length-prefixed block is read back from any longer input and from no shorter one. */
  lemma BlockOfPrefix(b: seq<byte>, s: seq<byte>)
    requires |b| < 0x1_0000_0000
    requires var e := BigEndian(|b|, 4) + b; s <= e || e <= s
    ensures Block(s) == if |s| < 4 + |b| then None else Some(b)
  {
    hide BigEndian, FromBigEndian, Block;
    LengthDecoded(|b|);
    BlockAfter(BigEndian(|b|, 4), b, s);
  }

  lemma LengthDecoded(n: nat)
    requires n < 0x1_0000_0000
    ensures FromBigEndian(BigEndian(n, 4)) == n
  {
    Pow256Values();
    DecodeEncoded(n, 4);
  }

  lemma BlockAfter(length: seq<byte>, b: seq<byte>, s: seq<byte>)
    requires |length| == 4 && FromBigEndian(length) == |b|
    requires s <= length + b || length + b <= s
    ensures Block(s) == if |s| < 4 + |b| then None else Some(b)
  {
    hide FromBigEndian;
    if |s| >= 4 {
      assert s[..4] == length;
      assert |s| >= 4 + |b| ==> s[4..4 + |b|] == b;
    }
  }

  lemma BlockSound(s: seq<byte>)
    requires Block(s).Some?
    ensures var b := Block(s).value; |b| < 0x1_0000_0000 && s[..4 + |b|] == BigEndian(|b|, 4) + b
  {
    Pow256Values();
    FromBigEndianBound(s[..4]);
    EncodeDecoded(s[..4]);
  }

  /** The first 13 bytes of a record: LSN, operation code, checksum. */
  function Head(r: LogRecord): (h: seq<byte>)
    ensures |h| == 13
  {
    BigEndian(r.lsn, 8) + [r.op.Code()] + BigEndian(r.checksum, 4)
  }

  lemma HeadFields(r: LogRecord, s: seq<byte>)
    requires Head(r) <= s
    ensures FromBigEndian(s[..8]) == r.lsn && OpFromCode(s[8]) == Some(r.op) && FromBigEndian(s[9..13]) == r.checksum
  {
    Pow256Values();
    DecodeEncoded(r.lsn, 8);
    DecodeEncoded(r.checksum, 4);
    assert s[..8] == Head(r)[..8] == BigEndian(r.lsn, 8);
    assert s[9..13] == Head(r)[9..13] == BigEndian(r.checksum, 4);
  }

  /** What the two blocks after the head read as when `s` is the encoding cut short, or extended. */
  lemma BlocksOfPrefix(r: LogRecord, s: seq<byte>)
    requires r.LengthsFit() && |s| >= 13
    requires s <= Serialize(r) || Serialize(r) <= s
    ensures Block(s[13..]) == if |s| < 17 + |r.key| then None else Some(r.key)
    ensures |s| >= 17 + |r.key| ==>
      Block(s[17 + |r.key|..]) == if |s| < 21 + |r.key| + |r.value| then None else Some(r.value)
  {
    hide Block, Bytes.BigEndian;
    var k, v := BigEndian(|r.key|, 4) + r.key, BigEndian(|r.value|, 4) + r.value;
    var e := Serialize(r);
    assert e == Head(r) + k + v;
    assert e[13..] == k + v && e[17 + |r.key|..] == v;
    BlockOfPrefix(r.key, s[13..]);
    if |s| >= 17 + |r.key| {
      BlockOfPrefix(r.value, s[17 + |r.key|..]);
    }
  }

  /** Reading an encoded record back, whatever follows it in the file. */
  lemma ReadBack(lib: Lib, r: LogRecord, rest: seq<byte>)
    requires r.WellFormed(lib)
    ensures Deserialize(lib, Serialize(r) + rest) == Ok(r, |Serialize(r)|)
  {
    hide Block, ValidUtf8, Bytes.BigEndian, Bytes.FromBigEndian;
    HeadFields(r, Serialize(r) + rest);
    BlocksOfPrefix(r, Serialize(r) + rest);
  }

  /** A record cut short is never read as a record, nor as a different one: 0 to 7 bytes are "EOF", longer cuts an
      error. */
  lemma CutRecordIsRejected(lib: Lib, r: LogRecord, n: nat)
    requires r.LengthsFit() && n < |Serialize(r)|
    ensures Deserialize(lib, Serialize(r)[..n]) == if n < 8 then Eof else Corrupt
  {
    hide Block, ValidUtf8, Bytes.BigEndian, Bytes.FromBigEndian;
    if n >= 13 {
      BlocksOfPrefix(r, Serialize(r)[..n]);
    }
  }

  /** Any accepted bytes are exactly the encoding of the record they are read as. */
  lemma AcceptedIsEncoding(lib: Lib, s: seq<byte>)
    requires Deserialize(lib, s).Ok?
    ensures var Ok(r, n) := Deserialize(lib, s); s[..n] == Serialize(r) && r.WellFormed(lib)
  {
    hide Block, ValidUtf8, Bytes.BigEndian, Bytes.FromBigEndian, LogRecord.ComputeChecksum;
    var Ok(r, n) := Deserialize(lib, s);
    var k := |r.key|;
    BlockSound(s[13..]);
    BlockSound(s[17 + k..]);
    EncodeDecoded(s[..8]);
    EncodeDecoded(s[9..13]);
    assert s[13..][..4 + k] == s[13..17 + k];
    assert s[17 + k..][..4 + |r.value|] == s[17 + k..n];
    assert s[..n] == s[..8] + [s[8]] + s[9..13] + s[13..17 + k] + s[17 + k..n];
  }

  /** The round trip holds exactly for records whose lengths fit the 32-bit length fields and whose checksum is right.
      */
  lemma RoundTripExactly(lib: Lib, r: LogRecord)
    ensures Deserialize(lib, Serialize(r)) == Ok(r, |Serialize(r)|) <==> r.WellFormed(lib)
  {
    if r.WellFormed(lib) {
      ReadBack(lib, r, []);
      assert Serialize(r) + [] == Serialize(r);
    }
    if Deserialize(lib, Serialize(r)) == Ok(r, |Serialize(r)|) {
      AcceptedIsEncoding(lib, Serialize(r));
    }
  }

  // ---- The format, byte by byte ----

  /** The bytes from the front of `s` have the outline of a record: an operation code, a key that is UTF-8, and a value,
      each with its 32-bit length before it. */
  predicate Framed(s: seq<byte>) {
    |s| >= 17 && 1 <= s[8] <= 4 &&
    var k := FromBigEndian(s[13..17]);
    |s| >= 21 + k && ValidUtf8(s[17..17 + k]) && |s| >= 21 + k + FromBigEndian(s[17 + k..21 + k])
  }

  function FrameLength(s: seq<byte>): (n: nat)
    requires Framed(s)
    ensures 21 <= n <= |s|
  {
    var k := FromBigEndian(s[13..17]); 21 + k + FromBigEndian(s[17 + k..21 + k])
  }

  lemma BlockAt(s: seq<byte>, i: nat)
    requires i <= |s|
    ensures Block(s[i..]) ==
      if |s| < i + 4 || |s| < i + 4 + FromBigEndian(s[i..i + 4]) then None
      else Some(s[i + 4..i + 4 + FromBigEndian(s[i..i + 4])])
  {
    hide FromBigEndian;
    if |s| >= i + 4 {
      assert s[i..][..4] == s[i..i + 4];
      var n := FromBigEndian(s[i..i + 4]);
      if |s| >= i + 4 + n { assert s[i..][4..4 + n] == s[i + 4..i + 4 + n]; }
    }
  }

  /** The bytes a record's checksum covers: all of its encoding but the checksum field. */
  lemma CoveredBytes(lib: Lib, s: seq<byte>, r: LogRecord)
    requires Framed(s) && r.lsn == FromBigEndian(s[..8]) && r.op.Code() == s[8]
    requires r.key == s[17..17 + FromBigEndian(s[13..17])]
    requires r.value == s[21 + |r.key|..FrameLength(s)]
    ensures r.ComputeChecksum(lib) == lib.crc(s[..9] + s[13..FrameLength(s)])
  {
    hide FromBigEndian, BigEndian, ValidUtf8;
    var k, n := |r.key|, FrameLength(s);
    EncodeDecoded(s[..8]);
    EncodeDecoded(s[13..17]);
    EncodeDecoded(s[17 + k..21 + k]);
    assert |r.value| == FromBigEndian(s[17 + k..21 + k]);
    var covered := BigEndian(r.lsn, 8) + [r.op.Code()] + BigEndian(k, 4) + r.key + BigEndian(|r.value|, 4) + r.value;
    assert s[..9] == s[..8] + [s[8]];
    assert s[13..n] == s[13..17] + s[17..17 + k] + s[17 + k..21 + k] + s[21 + k..n];
    assert covered == s[..9] + s[13..n];
  }

  /** What is read as a record, exactly: a frame whose checksum field is the CRC of all its other bytes. Its fields are
      at fixed places; the operation codes are 1 to 4. Anything else of 8 or more bytes is an error. */
  lemma DeserializeExactly(lib: Lib, s: seq<byte>)
    ensures Deserialize(lib, s).Ok? <==>
      Framed(s) && FromBigEndian(s[9..13]) == lib.crc(s[..9] + s[13..FrameLength(s)])
    ensures Deserialize(lib, s).Corrupt? <==> |s| >= 8 && !Deserialize(lib, s).Ok?
    ensures Deserialize(lib, s).Ok? ==>
      var Ok(r, n) := Deserialize(lib, s);
      && n == FrameLength(s) && r.lsn == FromBigEndian(s[..8]) && r.checksum == FromBigEndian(s[9..13])
      && r.op == (if s[8] == 1 then Insert else if s[8] == 2 then Update else if s[8] == 3 then Delete else Checkpoint)
      && r.key == s[17..17 + FromBigEndian(s[13..17])] && r.value == s[21 + |r.key|..n]
  {
    hide FromBigEndian, BigEndian, ValidUtf8, Block, LogRecord.ComputeChecksum;
    if |s| >= 13 {
      BlockAt(s, 13);
      if |s| >= 17 && |s| >= 17 + FromBigEndian(s[13..17]) {
        var k := FromBigEndian(s[13..17]);
        BlockAt(s, 17 + k);
        if Framed(s) {
          Pow256Values(); FromBigEndianBound(s[..8]); FromBigEndianBound(s[9..13]);
          var key, value := s[17..17 + k], s[21 + k..FrameLength(s)];
          var op := OpFromCode(s[8]).value;
          CoveredBytes(lib, s, LogRecord(FromBigEndian(s[..8]), op, key, value, FromBigEndian(s[9..13])));
        }
      }
    }
  }

  /** A stored value that was damaged is read as a record only if the CRC of the damaged bytes is still the stored one.
      */
  lemma DamagedValue(lib: Lib, r: LogRecord, v: seq<byte>, rest: seq<byte>)
    requires r.WellFormed(lib) && |v| == |r.value|
    ensures var damaged := Serialize(r.(value := v));
      Deserialize(lib, damaged + rest).Ok? <==> lib.crc(damaged[..9] + damaged[13..]) == r.checksum
  {
    hide FromBigEndian, BigEndian, ValidUtf8, Block, Deserialize, Serialize, LogRecord.ComputeChecksum;
    var d := r.(value := v);
    var s := Serialize(d) + rest;
    SerializedLength(d);
    SerializedFrame(d, rest);
    DeserializeExactly(lib, s);
    assert s[..9] + s[13..|Serialize(d)|] == Serialize(d)[..9] + Serialize(d)[13..];
  }

  lemma SerializedFrame(r: LogRecord, rest: seq<byte>)
    requires r.LengthsFit()
    ensures var s := Serialize(r) + rest;
      Framed(s) && FrameLength(s) == |Serialize(r)| && FromBigEndian(s[9..13]) == r.checksum
  {
    hide FromBigEndian, BigEndian, ValidUtf8;
    var s, k := Serialize(r) + rest, |r.key|;
    HeadFields(r, s);
    LengthDecoded(k);
    LengthDecoded(|r.value|);
    assert s[13..17] == BigEndian(k, 4);
    assert s[17..17 + k] == r.key;
    assert s[17 + k..21 + k] == BigEndian(|r.value|, 4);
  }

  // ---- Whole logs ----

  function Encode(rs: seq<LogRecord>): seq<byte> {
    if rs == [] then [] else Serialize(rs[0]) + Encode(rs[1..])
  }

  predicate AllWellFormed(lib: Lib, rs: seq<LogRecord>) {
    forall i :: 0 <= i < |rs| ==> rs[i].WellFormed(lib)
  }

  /** What the scan loop computes: the records, the end of the last one, and whether it stopped on an error. */
  datatype Scanned = Scanned(records: seq<LogRecord>, validBytes: nat, corrupt: bool)

  function Scan(lib: Lib, s: seq<byte>): (r: Scanned)
    ensures r.validBytes <= |s|
    decreases |s|
  {
    match Deserialize(lib, s)
    case Eof => Scanned([], 0, false)
    case Corrupt => Scanned([], 0, true)
    case Ok(r, n) =>
      var rest := Scan(lib, s[n..]);
      Scanned([r] + rest.records, n + rest.validBytes, rest.corrupt)
  }

  lemma ScanStep(lib: Lib, s: seq<byte>, r: LogRecord, n: nat)
    requires Deserialize(lib, s) == Ok(r, n)
    ensures var rest := Scan(lib, s[n..]);
      Scan(lib, s) == Scanned([r] + rest.records, n + rest.validBytes, rest.corrupt)
  {
    hide Deserialize;
  }

  /** The scan loop's invariant: the records `done` lie before `pos`, and the rest of the scan starts there. */
  ghost predicate ScannedUpTo(lib: Lib, file: seq<byte>, pos: nat, done: seq<LogRecord>) {
    pos <= |file| &&
    var all, rest := Scan(lib, file), Scan(lib, file[pos..]);
    && all.records == done + rest.records
    && all.validBytes == pos + rest.validBytes
    && all.corrupt == rest.corrupt
  }

  lemma ScanStart(lib: Lib, file: seq<byte>)
    ensures ScannedUpTo(lib, file, 0, [])
  {
    hide Scan;
    assert file[0..] == file;
    assert [] + Scan(lib, file).records == Scan(lib, file).records;
  }

  lemma ScanNext(lib: Lib, file: seq<byte>, pos: nat, done: seq<LogRecord>, r: LogRecord, n: nat)
    requires ScannedUpTo(lib, file, pos, done) && Deserialize(lib, file[pos..]) == Ok(r, n)
    ensures ScannedUpTo(lib, file, pos + n, done + [r])
  {
    hide Scan, Deserialize;
    ScanStep(lib, file[pos..], r, n);
    assert file[pos..][n..] == file[pos + n..];
    var rest := Scan(lib, file[pos + n..]).records;
    assert done + ([r] + rest) == done + [r] + rest;
  }

  lemma ScanEnd(lib: Lib, file: seq<byte>, pos: nat, done: seq<LogRecord>)
    requires ScannedUpTo(lib, file, pos, done) && !Deserialize(lib, file[pos..]).Ok?
    ensures Scan(lib, file) == Scanned(done, pos, Deserialize(lib, file[pos..]).Corrupt?)
  {
    hide Scan, Deserialize;
    ScanStop(lib, file[pos..]);
    assert done + [] == done;
  }

  lemma ScanStop(lib: Lib, s: seq<byte>)
    requires !Deserialize(lib, s).Ok?
    ensures Scan(lib, s) == Scanned([], 0, Deserialize(lib, s).Corrupt?)
  {
    hide Deserialize;
  }

  lemma {:induction false} EncodeAppend(a: seq<LogRecord>, b: seq<LogRecord>)
    ensures Encode(a + b) == Encode(a) + Encode(b)
  {
    if a == [] {
      assert a + b == b;
    } else {
      assert (a + b)[1..] == a[1..] + b;
      EncodeAppend(a[1..], b);
    }
  }

  lemma EncodeSnoc(a: seq<LogRecord>, r: LogRecord)
    ensures Encode(a + [r]) == Encode(a) + Serialize(r)
  {
    EncodeAppend(a, [r]);
    assert Encode([r]) == Serialize(r) + Encode([]);
  }

  /** Whole records at the front of a file are read as themselves; scanning goes on with what follows. */
  lemma {:induction false} ScanEncoded(lib: Lib, rs: seq<LogRecord>, rest: seq<byte>)
    requires AllWellFormed(lib, rs)
    ensures var after := Scan(lib, rest);
      Scan(lib, Encode(rs) + rest) == Scanned(rs + after.records, |Encode(rs)| + after.validBytes, after.corrupt)
  {
    hide Serialize, Deserialize, Scan, LogRecord.WellFormed;
    if rs == [] {
      assert Encode(rs) + rest == rest;
      assert rs + Scan(lib, rest).records == Scan(lib, rest).records;
    } else {
      var first, tail := Serialize(rs[0]), Encode(rs[1..]) + rest;
      assert Encode(rs) + rest == first + tail;
      ReadBack(lib, rs[0], tail);
      ScanStep(lib, first + tail, rs[0], |first|);
      assert (first + tail)[|first|..] == tail;
      ScanEncoded(lib, rs[1..], rest);
      assert [rs[0]] + (rs[1..] + Scan(lib, rest).records) == rs + Scan(lib, rest).records;
    }
  }

  lemma ScanWholeLog(lib: Lib, rs: seq<LogRecord>)
    requires AllWellFormed(lib, rs)
    ensures Scan(lib, Encode(rs)) == Scanned(rs, |Encode(rs)|, false)
  {
    ScanEncoded(lib, rs, []);
    assert Encode(rs) + [] == Encode(rs);
    assert rs + [] == rs;
  }

  /** On any file at all, the bytes the scan accepts are the encoding of the records it returns, and less than 8 bytes
      are left over exactly when it stopped at "EOF". */
  lemma {:induction false} ScanSound(lib: Lib, s: seq<byte>)
    ensures var r := Scan(lib, s);
      && s[..r.validBytes] == Encode(r.records)
      && AllWellFormed(lib, r.records)
      && (r.corrupt <==> |s| - r.validBytes >= 8)
    decreases |s|
  {
    hide Serialize, Deserialize;
    match Deserialize(lib, s)
    case Eof =>
    case Corrupt =>
    case Ok(r, n) =>
      AcceptedIsEncoding(lib, s);
      ScanSound(lib, s[n..]);
      var rest := Scan(lib, s[n..]);
      assert s[..n + rest.validBytes] == s[..n] + s[n..][..rest.validBytes];
      assert ([r] + rest.records)[1..] == rest.records;
  }

  /** The number of leading records that end at or before byte `cut`. */
  function WholeRecords(rs: seq<LogRecord>, cut: nat): (k: nat)
    ensures k <= |rs|
  {
    if rs == [] || cut < |Serialize(rs[0])| then 0
    else 1 + WholeRecords(rs[1..], cut - |Serialize(rs[0])|)
  }

  /** `WholeRecords` is the largest count of records whose encoding lies within the cut. */
  lemma {:induction false} WholeRecordsIsLargest(rs: seq<LogRecord>, cut: nat, j: nat)
    requires j <= |rs|
    ensures |Encode(rs[..j])| <= cut <==> j <= WholeRecords(rs, cut)
  {
    if j > 0 {
      assert rs[..j][1..] == rs[1..][..j - 1];
      if cut >= |Serialize(rs[0])| {
        WholeRecordsIsLargest(rs[1..], cut - |Serialize(rs[0])|, j - 1);
      }
    }
  }

  /** Every byte prefix of a log parses to exactly the whole records inside it, and stops with an error exactly when 8
      or more bytes of the cut record remain. */
  lemma {:induction false} PrefixParses(lib: Lib, rs: seq<LogRecord>, cut: nat)
    requires AllWellFormed(lib, rs) && cut <= |Encode(rs)|
    ensures var k := WholeRecords(rs, cut); var end := |Encode(rs[..k])|;
      Scan(lib, Encode(rs)[..cut]) == Scanned(rs[..k], end, cut - end >= 8)
  {
    hide Serialize, Deserialize, Scan;
    if rs == [] {
      ScanStop(lib, []);
    } else {
      var first := Serialize(rs[0]);
      if cut < |first| {
        assert Encode(rs)[..cut] == first[..cut];
        CutRecordIsRejected(lib, rs[0], cut);
        ScanStop(lib, first[..cut]);
      } else {
        var m := cut - |first|;
        PrefixParses(lib, rs[1..], m);
        var k := WholeRecords(rs[1..], m);
        assert Encode(rs)[..cut] == first + Encode(rs[1..])[..m];
        ReadBack(lib, rs[0], Encode(rs[1..])[..m]);
        ScanStep(lib, Encode(rs)[..cut], rs[0], |first|);
        assert Encode(rs)[..cut][|first|..] == Encode(rs[1..])[..m];
        assert rs[..k + 1] == [rs[0]] + rs[1..][..k];
        assert rs[..k + 1][1..] == rs[1..][..k];
      }
    }
  }
}
