/** Reading the v0.1 log back: `SegmentReader::next_record` of crates/mmbus/src/wal/segment_reader.rs and
    `WalReplayer::next` of crates/mmbus/src/wal/wal.rs, over the bytes of the files. */
module WalReplay {
  import opened Bytes
  import opened WalRecord
  import opened SegmentLog
  import Wal

  /** What only the v2 reader reports. */
  datatype MappedError =
    | LegacyV1Segment
    | OversizeRecord(recordLen: nat, offset: nat)
    | UndersizeRecord(recordLen: nat, offset: nat)
    | CrcMismatch(offset: nat)

  datatype Failure =
    | HeaderFailure(header: HeaderError)
    | ReadFailure(read: ReadError)
    | MappedFailure(mapped: MappedError)

  datatype Item = Rec(record: Record) | Fail(error: Failure)

  function Recs(rs: seq<Record>): seq<Item> {
    if rs == [] then [] else [Rec(rs[0])] + Recs(rs[1..])
  }

  /** Everything a reader hands out from here on; it halts after a failure. */
  function RestItems(crc: Checksum, s: seq<byte>, halted: bool): seq<Item>
    decreases |s|
  {
    if halted then []
    else
      var one := ReadOne(crc, s);
      match one
      case Eof => []
      case Bad(e) => [Fail(ReadFailure(e))]
      case Found(r, n) =>
        AcceptedIsEncoding(crc, s);
        [Rec(r)] + RestItems(crc, s[n..], false)
  }

  function FileItems(crc: Checksum, file: seq<byte>): seq<Item> {
    match ParseHeader(file)
    case HeaderErr(e) => [Fail(HeaderFailure(e))]
    case HeaderOk(_, _) => RestItems(crc, file[SEGMENT_HEADER_LEN..], false)
  }

  function FilesItems(crc: Checksum, files: seq<seq<byte>>): seq<Item> {
    if files == [] then [] else FileItems(crc, files[0]) + FilesItems(crc, files[1..])
  }

  predicate Below(item: Item, floor: nat) { item.Rec? && item.record.cursor < floor }

  /** Without the records below the floor. */
  function Above(items: seq<Item>, floor: nat): seq<Item> {
    if items == [] then [] else (if Below(items[0], floor) then [] else [items[0]]) + Above(items[1..], floor)
  }

  /** Taking the first item off what is still to come. */
  lemma {:induction false} AboveTakes(item: Item, rest: seq<Item>, files: seq<Item>, floor: nat)
    ensures Above([item] + rest + files, floor) ==
            (if Below(item, floor) then [] else [item]) + Above(rest + files, floor)
  {
    assert ([item] + rest + files)[1..] == rest + files;
  }

  lemma {:induction false} AboveEmpty(floor: nat)
    ensures Above([], floor) == []
  {
  }

  lemma {:induction false} NoMoreFiles(crc: Checksum, files: seq<seq<byte>>)
    requires files == []
    ensures [] + FilesItems(crc, files) == []
  {
  }

  lemma {:induction false} OpensNext(crc: Checksum, files: seq<seq<byte>>)
    requires files != []
    ensures [] + FilesItems(crc, files) == FileItems(crc, files[0]) + FilesItems(crc, files[1..])
    ensures ParseHeader(files[0]).HeaderErr? ==>
              FileItems(crc, files[0]) == [Fail(HeaderFailure(ParseHeader(files[0]).error))] + []
    ensures ParseHeader(files[0]).HeaderOk? ==>
              |files[0]| >= SEGMENT_HEADER_LEN
              && FileItems(crc, files[0]) == RestItems(crc, files[0][SEGMENT_HEADER_LEN..], false)
  {
    hide RestItems;
  }

  class SegmentReader {
    const file: seq<byte>
    var pos: nat
    var halted: bool

    predicate Valid()
      reads this
    {
      pos <= |file|
    }

    constructor (file: seq<byte>)
      requires |file| >= SEGMENT_HEADER_LEN
      ensures this.file == file && pos == SEGMENT_HEADER_LEN && !halted && Valid()
    {
      this.file := file;
      pos, halted := SEGMENT_HEADER_LEN, false;
    }

    function Rest(crc: Checksum): seq<Item>
      requires Valid()
      reads this
    {
      RestItems(crc, file[pos..], halted)
    }

    /** `next_record`: the next item, if there is one. */
    method NextRecord(crc: Checksum) returns (item: Option<Item>)
      requires Valid()
      modifies this
      ensures Valid()
      ensures item.None? <==> old(Rest(crc)) == []
      ensures item.None? ==> pos == old(pos) && halted == old(halted)
      ensures item.Some? ==> old(Rest(crc)) == [item.value] + Rest(crc)
      ensures item.Some? ==> pos > old(pos) || (halted && !old(halted) && pos == old(pos))
    {
      if halted { return None; }
      var s := file[pos..];
      match ReadOne(crc, s) {
        case Eof => return None;
        case Bad(e) =>
          halted := true;
          return Some(Fail(ReadFailure(e)));
        case Found(r, n) =>
          AcceptedIsEncoding(crc, s);
          assert s[n..] == file[pos + n..];
          pos := pos + n;
          return Some(Rec(r));
      }
    }
  }

  class Replayer {
    const segments: seq<seq<byte>>
    const cursorFloor: nat
    var segIdx: nat
    var current: SegmentReader?

    predicate Valid()
      reads this, current
    {
      segIdx <= |segments| && (current != null ==> current.Valid())
    }

    constructor (segments: seq<seq<byte>>, cursorFloor: nat)
      ensures Valid() && current == null && segIdx == 0 && this.segments == segments && this.cursorFloor == cursorFloor
      ensures forall crc: Checksum :: Remaining(crc) == Above(FilesItems(crc, segments), cursorFloor)
    {
      this.segments, this.cursorFloor := segments, cursorFloor;
      segIdx, current := 0, null;
      new;
      assert segments[0..] == segments;
      assert forall crc: Checksum :: [] + FilesItems(crc, segments) == FilesItems(crc, segments);
    }

    function Pending(crc: Checksum): seq<Item>
      requires Valid()
      reads this, current
    {
      (if current == null then [] else current.Rest(crc)) + FilesItems(crc, segments[segIdx..])
    }

    /** What is still to come. */
    function Remaining(crc: Checksum): seq<Item>
      requires Valid()
      reads this, current
    {
      Above(Pending(crc), cursorFloor)
    }

    /** `next`: the head of what is still to come, opening one file after the other. */
    method Next(crc: Checksum) returns (item: Option<Item>)
      requires Valid()
      modifies this, current
      ensures Valid() && (current == old(current) || current == null || fresh(current))
      ensures item.None? <==> old(Remaining(crc)) == []
      ensures item.Some? ==> old(Remaining(crc)) == [item.value] + Remaining(crc)
    {
      hide RestItems, ReadOne, Encode, FilesItems, FileItems, ParseHeader, Above;
      ghost var goal := Remaining(crc);
      AboveEmpty(cursorFloor);
      while true
        invariant Valid() && Remaining(crc) == goal
        invariant current == old(current) || current == null || fresh(current)
        decreases |segments| - segIdx, current != null, if current == null then 0 else |current.file| - current.pos,
                  current != null && !current.halted
      {
        if current == null {
          if segIdx >= |segments| {
            NoMoreFiles(crc, segments[segIdx..]);
            return None;
          }
          var file := segments[segIdx];
          assert segments[segIdx..][0] == file && segments[segIdx..][1..] == segments[segIdx + 1..];
          OpensNext(crc, segments[segIdx..]);
          segIdx := segIdx + 1;
          var header := ParseHeader(file);
          if header.HeaderErr? {
            AboveTakes(Fail(HeaderFailure(header.error)), [], FilesItems(crc, segments[segIdx..]), cursorFloor);
            return Some(Fail(HeaderFailure(header.error)));
          }
          current := new SegmentReader(file);
          continue;
        }
        var one := current.NextRecord(crc);
        if one.None? {
          current := null;
        } else {
          AboveTakes(one.value, current.Rest(crc), FilesItems(crc, segments[segIdx..]), cursorFloor);
          if !(one.value.Rec? && one.value.record.cursor < cursorFloor) { return one; }
        }
      }
    }
  }

  // ── What a replay yields ────────────────────────────────────────────────────

  lemma {:induction false} RecsConcat(a: seq<Record>, b: seq<Record>)
    ensures Recs(a + b) == Recs(a) + Recs(b)
  {
    if a == [] {
      assert a + b == b;
    } else {
      RecsConcat(a[1..], b);
      assert (a + b)[1..] == a[1..] + b;
      Regroup([Rec(a[0])], Recs(a[1..]), Recs(b));
    }
  }

  /** What follows the records of a scan: the failure that stopped it, if one did. */
  function Ending(last: ReadResult): seq<Item> {
    if last.Bad? then [Fail(ReadFailure(last.error))] else []
  }

  /** A reader hands out the records of the scan and then the failure that stopped it. */
  lemma {:induction false} ReaderScans(crc: Checksum, s: seq<byte>)
    ensures RestItems(crc, s, false) == Recs(Scan(crc, s).records) + Ending(Scan(crc, s).last)
    decreases |s|
  {
    hide ReadOne, Encode;
    var one := ReadOne(crc, s);
    if one.Found? {
      AcceptedIsEncoding(crc, s);
      ReaderScans(crc, s[one.advance..]);
      var q := Scan(crc, s[one.advance..]);
      assert ([one.record] + q.records)[1..] == q.records;
      Regroup([Rec(one.record)], Recs(q.records), Ending(q.last));
    }
  }

  lemma {:induction false} AboveConcat(a: seq<Item>, b: seq<Item>, c: nat)
    ensures Above(a + b, c) == Above(a, c) + Above(b, c)
  {
    if a == [] {
      assert a + b == b;
      AboveEmpty(c);
    } else {
      AboveOne(a, c);
      AboveOne(a + b, c);
      AboveConcat(a[1..], b, c);
      hide *;
      assert (a + b)[1..] == a[1..] + b && (a + b)[0] == a[0];
      Regroup(if Below(a[0], c) then [] else [a[0]], Above(a[1..], c), Above(b, c));
    }
  }

  lemma {:induction false} AboveOne(items: seq<Item>, c: nat)
    requires items != []
    ensures Above(items, c) == (if Below(items[0], c) then [] else [items[0]]) + Above(items[1..], c)
  {
  }

  lemma {:induction false} FilesSplit(crc: Checksum, files: seq<seq<byte>>, i: nat)
    requires i < |files|
    ensures FilesItems(crc, files) == FilesItems(crc, files[..i]) + FileItems(crc, files[i])
                                      + FilesItems(crc, files[i + 1..])
  {
    hide FileItems;
    if i == 0 {
      NoMoreFiles(crc, files[..0]);
      assert files[..0] == [];
    } else {
      FilesSplit(crc, files[1..], i - 1);
      assert files[1..][..i - 1] == files[..i][1..] && files[1..][i..] == files[i + 1..];
      hide FilesItems;
      var f, mid := FileItems(crc, files[0]), FileItems(crc, files[i]);
      var before, after := FilesItems(crc, files[1..][..i - 1]), FilesItems(crc, files[i + 1..]);
      assert FilesItems(crc, files) == f + FilesItems(crc, files[1..]) by { FilesOne(crc, files); }
      assert FilesItems(crc, files[..i]) == f + before by { FilesOne(crc, files[..i]); }
      assert f + (before + mid + after) == (f + before) + mid + after;
    }
  }

  lemma {:induction false} FilesOne(crc: Checksum, files: seq<seq<byte>>)
    requires files != []
    ensures FilesItems(crc, files) == FileItems(crc, files[0]) + FilesItems(crc, files[1..])
  {
    hide FileItems;
  }

  /** What one file of a log adds to its replay, whatever bytes are in it and in the others: the records of its good
      beginning that are at or past the asked cursor and then the failure that ends it, or the one failure of a file
      whose header is refused. The files behind it are read all the same. */
  lemma {:induction false} FileAmongFiles(crc: Checksum, files: seq<seq<byte>>, i: nat, c: nat)
    requires i < |files|
    ensures var header := ParseHeader(files[i]);
            var own := if header.HeaderErr? then [Fail(HeaderFailure(header.error))]
                       else
                         var q := Scan(crc, files[i][SEGMENT_HEADER_LEN..]);
                         Recs(AtLeast(q.records, c))
                         + (if q.last.Bad? then [Fail(ReadFailure(q.last.error))] else []);
            Above(FilesItems(crc, files), c)
            == Above(FilesItems(crc, files[..i]), c) + own + Above(FilesItems(crc, files[i + 1..]), c)
  {
    FilesSplit(crc, files, i);
    OwnItems(crc, files[i], c);
    hide *;
    var a, b, z := FilesItems(crc, files[..i]), FileItems(crc, files[i]), FilesItems(crc, files[i + 1..]);
    AboveConcat(a + b, z, c);
    AboveConcat(a, b, c);
  }

  lemma {:induction false} OwnItems(crc: Checksum, file: seq<byte>, c: nat)
    ensures var header := ParseHeader(file);
            Above(FileItems(crc, file), c)
            == if header.HeaderErr? then [Fail(HeaderFailure(header.error))]
               else
                 var q := Scan(crc, file[SEGMENT_HEADER_LEN..]);
                 Recs(AtLeast(q.records, c)) + (if q.last.Bad? then [Fail(ReadFailure(q.last.error))] else [])
  {
    hide FromLE, Scan, ReadOne, RestItems, Recs, AtLeast;
    if ParseHeader(file).HeaderErr? {
      OneFailure(HeaderFailure(ParseHeader(file).error), c);
    } else {
      var q := Scan(crc, file[SEGMENT_HEADER_LEN..]);
      ReaderScans(crc, file[SEGMENT_HEADER_LEN..]);
      AboveIsAtLeast(q.records, c);
      hide Above;
      AboveConcat(Recs(q.records), Ending(q.last), c);
      if q.last.Bad? { OneFailure(ReadFailure(q.last.error), c); } else { AboveEmpty(c); }
    }
  }

  lemma {:induction false} OneFailure(e: Failure, c: nat)
    ensures Above([Fail(e)], c) == [Fail(e)]
  {
    assert [Fail(e)][1..] == [];
  }

  lemma {:induction false} AboveIsAtLeast(rs: seq<Record>, c: nat)
    ensures Above(Recs(rs), c) == Recs(AtLeast(rs, c))
  {
    if rs != [] {
      AboveIsAtLeast(rs[1..], c);
      assert Recs(rs)[1..] == Recs(rs[1..]);
      RecsConcat(if rs[0].cursor >= c then [rs[0]] else [], AtLeast(rs[1..], c));
      assert Recs([rs[0]]) == [Rec(rs[0])] + Recs([]);
    }
  }

  /** The files of these segments, everything appended having reached them. */
  function Files(crc: Checksum, created: nat -> u64, ss: seq<Segment>): seq<seq<byte>>
    requires forall i :: 0 <= i < |ss| ==> ss[i].first < U64
  {
    if ss == [] then [] else [Wal.FileOf(crc, created(ss[0].first), ss[0])] + Files(crc, created, ss[1..])
  }

  lemma {:induction false} FileItemsOf(crc: Checksum, created: u64, s: Segment)
    requires s.first < U64 && AllFit(s.records)
    ensures FileItems(crc, Wal.FileOf(crc, created, s)) == Recs(s.records)
  {
    hide RestItems, ReadOne, Encode, Scan, EncodeHeader, ParseHeader, EncodeAll;
    var body := EncodeAll(crc, s.records);
    HeaderRoundTrip(s.first, created, body);
    assert (EncodeHeader(s.first, created) + body)[SEGMENT_HEADER_LEN..] == body;
    ReaderScans(crc, body);
    ScanOfEncodings(crc, s.records, []);
    ScanEmpty(crc);
    assert body + [] == body && s.records + [] == s.records;
    assert Recs(s.records) + [] == Recs(s.records);
  }

  lemma {:induction false} FilesItemsOf(crc: Checksum, created: nat -> u64, ss: seq<Segment>)
    requires forall i :: 0 <= i < |ss| ==> ss[i].first < U64 && AllFit(ss[i].records)
    ensures FilesItems(crc, Files(crc, created, ss)) == Recs(Concat(ss))
  {
    hide FileItems, AllFit, Recs;
    if ss == [] {
      RecsOfNone();
    } else {
      FileItemsOf(crc, created(ss[0].first), ss[0]);
      FilesItemsOf(crc, created, ss[1..]);
      RecsConcat(ss[0].records, Concat(ss[1..]));
    }
  }

  lemma {:induction false} RecsOfNone()
    ensures Recs([]) == []
  {
  }

  /** Replay is exact down to the bytes: draining the replayer that `read_from` builds over flushed files yields,
      without a failure, exactly the records from the asked cursor on that the log still has. */
  lemma {:induction false} ReplayOfFiles(crc: Checksum, created: nat -> u64, ss: seq<Segment>, c: nat)
    requires Chained(ss) && (forall i :: 0 <= i < |ss| ==> ss[i].first < U64 && AllFit(ss[i].records))
    requires ReadFrom(ss, c).Records?
    ensures Above(FilesItems(crc, Files(crc, created, ss[Containing(ss, c)..])), c) == Recs(AtLeast(Concat(ss), c))
  {
    hide AllFit, Chained, Recs, Above, FilesItems, Files, AtLeast, Concat;
    var from := ss[Containing(ss, c)..];
    FilesItemsOf(crc, created, from);
    AboveIsAtLeast(Concat(from), c);
    ReplayExact(ss, c);
    if ss == [] { assert from == ss; }
  }
}
