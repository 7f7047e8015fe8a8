// The durable transition file: what its lines say (scanRecords), how a store is
// opened from it, and what Append, eviction and migration do to it.
//
// A file is its lines after the trailing newlines are cut off, each line already
// parsed, plus a flag for a last line that carries no terminator.
module TransitionFile {
  import opened Seqs

  const FILE_TRANSITION_CAPACITY: nat := 10000

  datatype Transition = Transition(at: int, from: bool, to: bool, unknownRate: int, threshold: int)

  datatype Record = Record(seqNo: int, transition: Transition)

  datatype Meta = Meta(fileDropped: int, lastSeq: int, inconsistent: bool)

  // What one line parses to. Garbage is every other non-blank text; a metadata
  // line anywhere but first is garbage too, because it carries no time.
  datatype Line = MetaLine(meta: Meta) | RecordLine(rec: Record) | Blank | Garbage

  datatype File = File(lines: seq<Line>, torn: bool)

  datatype ScanResult = ScanResult(
    records: seq<Record>, fileDropped: int, metaLastSeq: int,
    metaInconsistent: bool, corrupt: bool, legacy: bool)

  // ----- reading -----

  predicate IsText(l: Line) {
    !l.Blank?
  }

  // The records of the transition lines, or None when a line that is not a torn
  // last line cannot be read.
  function Parse(tx: seq<Line>, torn: bool): Option<seq<Record>> {
    if tx == [] then Some([])
    else if tx[0].RecordLine? then
      match Parse(tx[1..], torn)
      case None => None
      case Some(rest) => Some([tx[0].rec] + rest)
    else if |tx| == 1 && torn then Some([])
    else None
  }

  function TransitionLines(f: File): seq<Line> {
    if f.lines == [] then []
    else Filter(if f.lines[0].RecordLine? then f.lines else f.lines[1..], IsText)
  }

  predicate HasLegacy(rs: seq<Record>) {
    exists r :: r in rs && r.seqNo == 0
  }

  function Scan(f: File): ScanResult {
    if f.lines == [] then ScanResult([], 0, 0, false, false, false)
    else
      var head := f.lines[0];
      var inconsistent := head.MetaLine? ==> head.meta.inconsistent;
      var fileDropped := if head.MetaLine? then head.meta.fileDropped else 0;
      var lastSeq := if head.MetaLine? then head.meta.lastSeq else 0;
      match Parse(TransitionLines(f), f.torn)
      case None => ScanResult([], 0, lastSeq, inconsistent, true, false)
      case Some(rs) => ScanResult(rs, fileDropped, lastSeq, inconsistent, false, HasLegacy(rs))
  }

  // ----- writing -----

  function RecordLines(rs: seq<Record>): (ls: seq<Line>)
    ensures |ls| == |rs|
    ensures forall i :: 0 <= i < |rs| ==> ls[i] == RecordLine(rs[i])
  {
    Map(rs, r => RecordLine(r))
  }

  // The file the store itself writes: a metadata line, then the records.
  function Encode(m: Meta, rs: seq<Record>): File {
    File([MetaLine(m)] + RecordLines(rs), false)
  }

  // Text appended behind an unterminated last line becomes one line with it.
  function Join(last: Line, l: Line): Line {
    if last.Blank? then l else Garbage
  }

  function AppendLine(f: File, l: Line): File {
    if f.torn && f.lines != [] then
      File(f.lines[..|f.lines| - 1] + [Join(f.lines[|f.lines| - 1], l)], false)
    else
      File(f.lines + [l], false)
  }

  function MaxSeq(rs: seq<Record>, floor: int): (m: int)
    ensures m >= floor
  {
    if rs == [] then floor
    else
      var rest := MaxSeq(rs[..|rs| - 1], floor);
      if rs[|rs| - 1].seqNo > rest then rs[|rs| - 1].seqNo else rest
  }

  lemma {:induction false} MaxSeqIsMax(rs: seq<Record>, floor: int)
    ensures forall r :: r in rs ==> r.seqNo <= MaxSeq(rs, floor)
    ensures MaxSeq(rs, floor) == floor || exists r :: r in rs && r.seqNo == MaxSeq(rs, floor)
  {
    if rs != [] {
      MaxSeqIsMax(rs[..|rs| - 1], floor);
      assert rs == rs[..|rs| - 1] + [rs[|rs| - 1]];
    }
  }

  // Sequence numbers 1..N in the durable order.
  function Renumber(rs: seq<Record>): (out: seq<Record>)
    ensures |out| == |rs|
    ensures forall i :: 0 <= i < |rs| ==> out[i] == Record(i + 1, rs[i].transition)
  {
    seq(|rs|, i requires 0 <= i < |rs| => Record(i + 1, rs[i].transition))
  }

  function Migrated(f: File): File {
    var r := Scan(f);
    Encode(Meta(if r.metaInconsistent then 0 else r.fileDropped, |r.records|, r.metaInconsistent),
           Renumber(r.records))
  }

  // ----- the store -----

  // The file and the counters that mirror it in memory.
  datatype Store = Store(file: File, count: int, fileDropped: int, lastSeq: int, openErr: bool)

  // Which steps after the durable write fail.
  datatype AppendIO = AppendIO(writeFails: bool, closeFails: bool, evictFails: bool)

  function Initialised(f: File): File {
    if f.lines == [] then Encode(Meta(0, 0, false), []) else f
  }

  function Mirror(f: File, r: ScanResult): Store {
    Store(f, |r.records|, r.fileDropped, MaxSeq(r.records, r.metaLastSeq), false)
  }

  // A scan refreshes the counters in memory from the file.
  function Refresh(s: Store): Store {
    var r := Scan(s.file);
    if r.corrupt then s.(count := |TransitionLines(s.file)|)
    else s.(count := |r.records|, fileDropped := r.fileDropped)
  }

  // Opening a store on an existing file; a failed migration leaves it degraded.
  function Open(f0: File, migrateFails: bool): Store {
    var f := Initialised(f0);
    var r := Scan(f);
    var s := Refresh(Store(f, 0, 0, 0, false));
    if r.corrupt then Store(f, 0, 0, 0, false)
    else if r.legacy then
      var f' := Migrated(f);
      var r' := Scan(f');
      if migrateFails then s.(openErr := true)
      else if r'.corrupt || r'.legacy then Refresh(s.(file := f')).(openErr := true)
      else Mirror(f', r')
    else Mirror(f, r)
  }

  // Keeping the newest lines up to the cap, in one atomic replacement.
  function Evict(s: Store, fails: bool): Store {
    var hasMeta := s.file.lines != [] && s.file.lines[0].MetaLine?;
    var inconsistent := hasMeta && s.file.lines[0].meta.inconsistent;
    var tx := if hasMeta then s.file.lines[1..] else s.file.lines;
    if fails || |tx| <= FILE_TRANSITION_CAPACITY then s
    else
      var evicted := |tx| - FILE_TRANSITION_CAPACITY;
      var dropped := (if inconsistent then 0 else s.fileDropped) + evicted;
      Store(File([MetaLine(Meta(dropped, s.lastSeq, inconsistent))] + tx[evicted..], false),
            FILE_TRANSITION_CAPACITY, s.fileDropped + evicted, s.lastSeq, s.openErr)
  }

  predicate Writes(s: Store, io: AppendIO) {
    !s.openErr && !io.writeFails
  }

  function AfterWrite(s: Store, t: Transition): Store {
    s.(file := AppendLine(s.file, RecordLine(Record(s.lastSeq + 1, t))),
       lastSeq := s.lastSeq + 1, count := s.count + 1)
  }

  function Append(s: Store, t: Transition, io: AppendIO): Store {
    if !Writes(s, io) then s
    else
      var s' := AfterWrite(s, t);
      if s'.count > FILE_TRANSITION_CAPACITY then Evict(s', io.evictFails) else s'
  }

  // What Append returns: success only when every step it reached succeeded.
  predicate AppendOk(s: Store, t: Transition, io: AppendIO) {
    Writes(s, io) && !io.closeFails
    && (AfterWrite(s, t).count > FILE_TRANSITION_CAPACITY ==> !io.evictFails)
  }

  function Transitions(rs: seq<Record>): seq<Transition> {
    Map(rs, (r: Record) => r.transition)
  }

  // What Load hands the alert tracker.
  datatype LoadResult = LoadResult(
    transitions: seq<Transition>, fileDropped: int, metaInconsistent: bool, corrupt: bool, loadErr: bool)

  function Load(s: Store): LoadResult {
    var r := Scan(s.file);
    if s.openErr then LoadResult([], 0, false, false, true)
    else if r.corrupt then LoadResult([], 0, r.metaInconsistent, true, false)
    else LoadResult(Transitions(r.records), r.fileDropped, r.metaInconsistent, false, false)
  }

  // ----- the laws of one file -----

  lemma {:induction false} ParseOfRecords(rs: seq<Record>, torn: bool)
    ensures Parse(RecordLines(rs), torn) == Some(rs)
  {
    if rs != [] {
      assert RecordLines(rs)[1..] == RecordLines(rs[1..]);
      assert RecordLines(rs)[0] == RecordLine(rs[0]);
      ParseOfRecords(rs[1..], torn);
      assert [rs[0]] + rs[1..] == rs;
    }
  }

  // Reading what the store wrote gives it back.
  lemma ScanOfEncode(m: Meta, rs: seq<Record>)
    ensures Scan(Encode(m, rs))
         == ScanResult(rs, m.fileDropped, m.lastSeq, m.inconsistent, false, HasLegacy(rs))
  {
    var ls := RecordLines(rs);
    assert Encode(m, rs).lines[1..] == ls;
    FilterAll(ls, IsText);
    ParseOfRecords(rs, false);
  }

  // Migration publishes a complete v2 file: same transitions, same order,
  // sequences 1..N, the "unknown" marker carried over, and no legacy record left.
  lemma MigrationIsComplete(f: File)
    requires !Scan(f).corrupt
    ensures var r := Scan(f); var r' := Scan(Migrated(f));
            && r'.records == Renumber(r.records)
            && !r'.corrupt && !r'.legacy
            && r'.metaLastSeq == |r.records|
            && r'.metaInconsistent == r.metaInconsistent
            && r'.fileDropped == (if r.metaInconsistent then 0 else r.fileDropped)
    ensures Migrated(Migrated(f)) == Migrated(f)
  {
    var r := Scan(f);
    var m := Meta(if r.metaInconsistent then 0 else r.fileDropped, |r.records|, r.metaInconsistent);
    ScanOfEncode(m, Renumber(r.records));
    assert Renumber(Renumber(r.records)) == Renumber(r.records);
  }

  // Every sequence number the file shows: its watermark and its readable records,
  // also those in front of or behind an unreadable line.
  function HighWater(f: File): (h: int)
    ensures h >= 0
  {
    MaxSeq(Readable(f.lines), if f.lines != [] && f.lines[0].MetaLine? && f.lines[0].meta.lastSeq > 0
                              then f.lines[0].meta.lastSeq else 0)
  }

  function Readable(ls: seq<Line>): seq<Record> {
    if ls == [] then []
    else (if ls[0].RecordLine? then [ls[0].rec] else []) + Readable(ls[1..])
  }

  lemma {:induction false} ReadableOfFiltered(ls: seq<Line>)
    ensures Readable(Filter(ls, IsText)) == Readable(ls)
    decreases |ls|
  {
    if ls != [] {
      var init, last := ls[..|ls| - 1], [ls[|ls| - 1]];
      assert ls == init + last;
      ReadableOfFiltered(init);
      ReadableConcat(init, last);
      assert last[1..] == [];
      if IsText(last[0]) {
        ReadableConcat(Filter(init, IsText), last);
        assert Filter(ls, IsText) == Filter(init, IsText) + last;
      } else {
        assert Filter(ls, IsText) == Filter(init, IsText);
      }
    }
  }

  lemma {:induction false} ReadableConcat(a: seq<Line>, b: seq<Line>)
    ensures Readable(a + b) == Readable(a) + Readable(b)
  {
    if a == [] {
      assert a + b == b;
    } else {
      assert (a + b)[0] == a[0] && (a + b)[1..] == a[1..] + b;
      ReadableConcat(a[1..], b);
    }
  }

  lemma {:induction false} ParseIsReadable(tx: seq<Line>, torn: bool)
    requires Parse(tx, torn).Some?
    ensures Parse(tx, torn).value == Readable(tx)
  {
    if tx != [] && tx[0].RecordLine? {
      ParseIsReadable(tx[1..], torn);
    }
  }

  lemma ReadableBehindHead(ls: seq<Line>)
    requires ls != []
    ensures !ls[0].RecordLine? ==> Readable(ls) == Readable(ls[1..])
  {
  }

  lemma ScannedAreReadable(f: File)
    requires !Scan(f).corrupt
    ensures Scan(f).records == Readable(f.lines)
  {
    hide Parse, Filter, HasLegacy;
    if f.lines != [] {
      hide Readable;
      ReadableBehindHead(f.lines);
      ReadableOfFiltered(if f.lines[0].RecordLine? then f.lines else f.lines[1..]);
      ParseIsReadable(TransitionLines(f), f.torn);
    }
  }

  // The first sequence a reopened store hands out is new exactly when the file
  // was readable and already in the v2 format, or what it shows is small enough:
  // a corrupt file restarts at 1, and a migration restarts at N + 1.
  lemma NextSeqIsFreshIff(f: File)
    requires f.lines != [] && (f.lines[0].MetaLine? ==> f.lines[0].meta.lastSeq >= 0)
    requires forall r :: r in Readable(f.lines) ==> r.seqNo >= 0
    ensures var r := Scan(f);
            Open(f, false).lastSeq + 1 > HighWater(f)
            <==> ((r.corrupt ==> HighWater(f) == 0)
                  && (!r.corrupt && r.legacy ==> HighWater(f) <= |r.records|))
  {
    var r := Scan(f);
    if !r.corrupt {
      ScannedAreReadable(f);
      if r.legacy {
        MigrationIsComplete(f);
        MaxSeqIsMax(Renumber(r.records), |r.records|);
      } else {
        MaxSeqIsMax(r.records, r.metaLastSeq);
        MaxSeqIsMax(r.records, HighWater(f));
      }
    }
  }

  // Both kinds of reissue. One unreadable line in front of the records: the reopened
  // store starts again at 1, though every record is still there to be read.
  lemma CorruptFileReissues(m: Meta, rs: seq<Record>, r: Record)
    requires r in rs && r.seqNo >= 1
    ensures var f := File([MetaLine(m), Garbage] + RecordLines(rs), false);
      Scan(f).corrupt && Readable(f.lines) == rs && Open(f, false).lastSeq + 1 == 1 <= r.seqNo <= HighWater(f)
  {
    var f := File([MetaLine(m), Garbage] + RecordLines(rs), false);
    BehindGarbage(m, rs);
    OpenOfCorrupt(f);
    hide Scan, Open, Readable;
    MaxSeqIsMax(rs, if m.lastSeq > 0 then m.lastSeq else 0);
  }

  lemma BehindGarbage(m: Meta, rs: seq<Record>)
    ensures var f := File([MetaLine(m), Garbage] + RecordLines(rs), false);
      (rs != [] ==> Scan(f).corrupt) && Readable(f.lines) == rs
  {
    var behind := [Garbage] + RecordLines(rs);
    var lines := [MetaLine(m), Garbage] + RecordLines(rs);
    assert lines[1..] == behind && lines[0] == MetaLine(m);
    FilterAll(behind, IsText);
    GarbageThenRecords(rs);
    hide Filter, RecordLines, Parse;
  }

  lemma GarbageThenRecords(rs: seq<Record>)
    ensures var behind := [Garbage] + RecordLines(rs);
      Readable(behind) == rs && (rs != [] ==> Parse(behind, false) == None)
  {
    assert ([Garbage] + RecordLines(rs))[1..] == RecordLines(rs);
    ReadableOfRecords(rs);
    hide RecordLines;
  }

  lemma OpenOfCorrupt(f: File)
    requires f.lines != [] && Scan(f).corrupt
    ensures Open(f, false).lastSeq == 0
  {
    hide Scan;
  }

  lemma ReadableOfRecords(rs: seq<Record>)
    ensures Readable(RecordLines(rs)) == rs
  {
    ParseOfRecords(rs, false);
    ParseIsReadable(RecordLines(rs), false);
  }

  // One legacy record behind record n: migration renumbers both and goes on from 3.
  lemma MixedFileReissues(n: int, t: Transition, u: Transition)
    requires n >= 3
    ensures var f := File([RecordLine(Record(n, t)), RecordLine(Record(0, u))], false);
      Scan(f).legacy && !Scan(f).corrupt && Readable(f.lines) == [Record(n, t), Record(0, u)]
      && Open(f, false).lastSeq + 1 == 3 <= HighWater(f)
  {
    var rs := [Record(n, t), Record(0, u)];
    var f := File([RecordLine(Record(n, t)), RecordLine(Record(0, u))], false);
    assert f.lines == RecordLines(rs);
    assert rs[0] in rs && rs[1] in rs;
    ScanOfRecords(rs);
    hide Scan, RecordLines;
    OpenOfLegacy(f);
    ScannedAreReadable(f);
    MaxSeqIsMax(rs, 0);
  }

  lemma ScanOfRecords(rs: seq<Record>)
    requires rs != []
    ensures Scan(File(RecordLines(rs), false)) == ScanResult(rs, 0, 0, true, false, HasLegacy(rs))
  {
    FilterAll(RecordLines(rs), IsText);
    ParseOfRecords(rs, false);
    hide Scan, Parse, Filter;
    ScanOfParsed(RecordLines(rs), rs, false);
  }

  // A file without a metadata line, once its lines are parsed.
  lemma ScanOfParsed(ls: seq<Line>, rs: seq<Record>, torn: bool)
    requires ls != [] && ls[0].RecordLine? && Filter(ls, IsText) == ls && Parse(ls, torn) == Some(rs)
    ensures Scan(File(ls, torn)) == ScanResult(rs, 0, 0, true, false, HasLegacy(rs))
  {
    hide Parse, Filter, HasLegacy;
  }

  lemma OpenOfLegacy(f: File)
    requires f.lines != [] && !Scan(f).corrupt && Scan(f).legacy
    ensures Open(f, false).lastSeq == |Scan(f).records|
  {
    MigrationIsComplete(f);
    hide Scan;
    MaxSeqIsMax(Renumber(Scan(f).records), |Scan(f).records|);
  }

  // ----- what the store admits -----

  // Load hands over every readable record in order, with what the metadata line says; a
  // file without one has no known drop count. Corruption and a failed opening are said,
  // and then nothing is handed over.
  lemma LoadTells(s: Store)
    ensures var l := Load(s);
      && l.loadErr == s.openErr && l.corrupt == (!s.openErr && Scan(s.file).corrupt)
      && (l.loadErr || l.corrupt ==> l.transitions == [] && l.fileDropped == 0)
      && (!l.loadErr && !l.corrupt ==>
            && l.transitions == Transitions(Readable(s.file.lines))
            && (s.file.lines != [] && s.file.lines[0].MetaLine? ==>
                  l.fileDropped == s.file.lines[0].meta.fileDropped && l.metaInconsistent == s.file.lines[0].meta.inconsistent)
            && (s.file.lines == [] || !s.file.lines[0].MetaLine? ==>
                  l.fileDropped == 0 && l.metaInconsistent == (s.file.lines != [])))
  {
    if !Scan(s.file).corrupt {
      ScannedAreReadable(s.file);
    }
  }

  // A migration that fails leaves the file as it was and the store degraded: it loads
  // nothing and refuses every append.
  lemma FailedMigrationDegrades(f: File, t: Transition, io: AppendIO)
    requires f.lines != [] && !Scan(f).corrupt && Scan(f).legacy
    ensures var s := Open(f, true);
      s.openErr && s.file == f && Load(s).loadErr && !AppendOk(s, t, io) && Append(s, t, io) == s
  {
  }

  // An append that answers failure has nevertheless stored its record in exactly two
  // cases: the close failed, or the eviction it was due failed. Success means it is stored.
  lemma AnsweredFailureIff(s: Store, t: Transition, io: AppendIO)
    ensures AppendOk(s, t, io) ==> Append(s, t, io).lastSeq == s.lastSeq + 1
    ensures !AppendOk(s, t, io) && Append(s, t, io).lastSeq == s.lastSeq + 1 <==>
      !s.openErr && !io.writeFails && (io.closeFails || (s.count >= FILE_TRANSITION_CAPACITY && io.evictFails))
  {
  }

  // After a read the mirror counts the lines an eviction would count, on a corrupt file
  // too, as long as no last line is torn.
  lemma MirrorCountsLines(s: Store)
    requires !s.file.torn
    ensures Refresh(s).count == |TransitionLines(s.file)|
    ensures Refresh(s).file == s.file && Refresh(s).lastSeq == s.lastSeq && Refresh(s).openErr == s.openErr
  {
    if s.file.lines != [] {
      ParseCounts(TransitionLines(s.file));
    }
  }

  lemma {:induction false} ParseCounts(tx: seq<Line>)
    ensures Parse(tx, false).Some? ==> |Parse(tx, false).value| == |tx|
  {
    if tx != [] {
      ParseCounts(tx[1..]);
    }
  }

  // Eviction, on any file with a line too many: the newest lines stay as they are, and
  // the number cut is added to the counts, in the file from zero when it was unknown.
  lemma EvictCuts(s: Store, fails: bool)
    ensures var after, tx := Evict(s, fails), EvictableLines(s.file);
      if fails || |tx| <= FILE_TRANSITION_CAPACITY then after == s
      else
        var ls, cut := after.file.lines, |tx| - FILE_TRANSITION_CAPACITY;
        && ls != [] && ls[0].MetaLine? && !after.file.torn
        && ls[1..] == LastN(tx, FILE_TRANSITION_CAPACITY)
        && ls[0].meta.lastSeq == after.lastSeq == s.lastSeq
        && after.fileDropped == s.fileDropped + cut && after.count == FILE_TRANSITION_CAPACITY
        && ls[0].meta.fileDropped == cut + if ls[0].meta.inconsistent then 0 else s.fileDropped
  {
  }

  function EvictableLines(f: File): seq<Line> {
    if f.lines != [] && f.lines[0].MetaLine? then f.lines[1..] else f.lines
  }

  // ----- reading back an append -----

  // Whether something written now starts on a line of its own.
  predicate StartsFresh(f: File) {
    f.torn && f.lines != [] ==> f.lines[|f.lines| - 1].Blank?
  }

  lemma {:induction false} ParseSnoc(tx: seq<Line>, l: Line)
    ensures Parse(tx + [l], false)
         == if Parse(tx, false).Some? && l.RecordLine? then Some(Parse(tx, false).value + [l.rec]) else None
  {
    if tx != [] {
      assert (tx + [l])[0] == tx[0] && (tx + [l])[1..] == tx[1..] + [l];
      ParseSnoc(tx[1..], l);
      if tx[0].RecordLine? && l.RecordLine? && Parse(tx[1..], false).Some? {
        var rest := Parse(tx[1..], false).value;
        assert [tx[0].rec] + (rest + [l.rec]) == [tx[0].rec] + rest + [l.rec];
      }
    } else {
      assert tx + [l] == [l] && [l][1..] == [];
      if l.RecordLine? {
        assert [l.rec] + [] == [] + [l.rec];
      }
    }
  }

  // One more line behind a terminated file that has a first line.
  lemma TransitionLinesSnoc(ls: seq<Line>, l: Line)
    requires ls != []
    ensures TransitionLines(File(ls + [l], false))
         == TransitionLines(File(ls, false)) + if IsText(l) then [l] else []
  {
    var tx := if ls[0].RecordLine? then ls else ls[1..];
    var more := if ls[0].RecordLine? then ls + [l] else (ls + [l])[1..];
    assert more == tx + [l] && more[..|more| - 1] == tx;
  }

  lemma ScanSnoc(ls: seq<Line>, l: Line)
    requires ls != []
    ensures Scan(File(ls + [l], false)).corrupt
        <==> Scan(File(ls, false)).corrupt || (!l.RecordLine? && !l.Blank?)
  {
    TransitionLinesSnoc(ls, l);
    ParseSnoc(TransitionLines(File(ls, false)), l);
    hide Parse, TransitionLines;
    assert TransitionLines(File(ls, false)) + [] == TransitionLines(File(ls, false));
    assert Scan(File(ls + [l], false)).corrupt <==> Parse(TransitionLines(File(ls + [l], false)), false).None?;
  }

  // A single line is never corrupt: what is not a record is taken for unreadable metadata.
  lemma ScanOfOne(l: Line, torn: bool)
    ensures !Scan(File([l], torn)).corrupt
  {
    if l.RecordLine? {
      hide Scan;
      ScanOfOneRecord([l], torn);
    } else {
      assert [l][1..] == [];
      FilterNone([l][1..], IsText);
    }
  }

  lemma ScanOfOneRecord(ls: seq<Line>, torn: bool)
    requires |ls| == 1 && ls[0].RecordLine?
    ensures !Scan(File(ls, torn)).corrupt
  {
    var rs := [ls[0].rec];
    FilterAll(ls, IsText);
    assert ls[1..] == [];
    assert Parse(ls[1..], torn) == Some([]);
    assert rs + [] == rs;
    hide Scan, Filter;
    ScanOfParsed(ls, rs, torn);
  }

  // A durable append can be read back exactly when the lines in front of it can be
  // read, a torn last line counted among them, and it starts on a line of its own.
  // What it leaves behind is corrupt when those lines were, or when it is joined with
  // leftover text that is not the whole file.
  lemma AppendIsReadableIff(f: File, r: Record)
    ensures var g := AppendLine(f, RecordLine(r)); var whole := f.(torn := false);
      && (!Scan(g).corrupt && Scan(g).records == Readable(f.lines) + [r]
          <==> !Scan(whole).corrupt && StartsFresh(f))
      && (Scan(g).corrupt <==> if StartsFresh(f) then Scan(whole).corrupt else |f.lines| > 1)
  {
    CorruptAfterAppend(f, r);
    ReadableAfterAppend(f, r);
    var g := AppendLine(f, RecordLine(r));
    hide Scan, AppendLine, Readable;
    if !Scan(g).corrupt {
      ScannedAreReadable(g);
    }
  }

  lemma CorruptAfterAppend(f: File, r: Record)
    ensures Scan(AppendLine(f, RecordLine(r))).corrupt
        <==> if StartsFresh(f) then Scan(f.(torn := false)).corrupt else |f.lines| > 1
  {
    var g := AppendLine(f, RecordLine(r));
    hide Scan;
    if f.lines == [] {
      ScanOfOne(RecordLine(r), false);
      assert f.(torn := false) == File([], false) && g.lines == [RecordLine(r)];
      ScanOfNothing();
    } else if !f.torn {
      ScanSnoc(f.lines, RecordLine(r));
      assert f == File(f.lines, false);
    } else {
      var init, last := f.lines[..|f.lines| - 1], f.lines[|f.lines| - 1];
      assert f.lines == init + [last];
      if init == [] {
        ScanOfOne(last, false);
        ScanOfOne(Join(last, RecordLine(r)), false);
        assert g.lines == [Join(last, RecordLine(r))] && f.lines == [last];
      } else {
        ScanSnoc(init, last);
        ScanSnoc(init, Join(last, RecordLine(r)));
      }
    }
  }

  lemma ScanOfNothing()
    ensures !Scan(File([], false)).corrupt
  {
  }

  lemma ReadableAfterAppend(f: File, r: Record)
    ensures Readable(AppendLine(f, RecordLine(r)).lines) == Readable(f.lines) + [r] <==> StartsFresh(f)
  {
    if f.torn && f.lines != [] {
      var init, last := f.lines[..|f.lines| - 1], f.lines[|f.lines| - 1];
      assert f.lines == init + [last];
      ReadableConcat(init, [last]);
      ReadableConcat(init, [Join(last, RecordLine(r))]);
    } else {
      ReadableConcat(f.lines, [RecordLine(r)]);
    }
  }

  // A corrupt file accepts appends and stays corrupt: opening it raises no error, so
  // the append answers success and nothing of the file can be read afterwards.
  lemma CorruptFileAcceptsAppends(f: File, t: Transition)
    requires Scan(f).corrupt
    ensures var s := Open(f, false);
      && AppendOk(s, t, AppendIO(false, false, false))
      && Load(Append(s, t, AppendIO(false, false, false))).corrupt
  {
    var r := Record(1, t);
    AppendIsReadableIff(f, r);
    TornIsMilder(f);
    hide Scan;
    var s := Open(f, false);
    assert s == Store(f, 0, 0, 0, false);
    assert Append(s, t, AppendIO(false, false, false)).file == AppendLine(f, RecordLine(r));
  }

  lemma TornIsMilder(f: File)
    requires Scan(f).corrupt
    ensures Scan(f.(torn := false)).corrupt && |f.lines| > 1
  {
    ParseTornIsMilder(TransitionLines(f));
    if |f.lines| == 1 {
      assert f.lines == [f.lines[0]];
      ScanOfOne(f.lines[0], f.torn);
    }
  }

  lemma {:induction false} ParseTornIsMilder(tx: seq<Line>)
    ensures Parse(tx, true) == None ==> Parse(tx, false) == None
  {
    if tx != [] {
      ParseTornIsMilder(tx[1..]);
    }
  }

  // Nor is a torn last line that is blank enough: here the file reads well only as long
  // as its last line is the torn one, and the append terminates that line.
  lemma AppendBehindTornBlankCorrupts(m: Meta, r: Record)
    ensures var f := File([MetaLine(m), Garbage, Blank], true);
      && !Scan(f).corrupt && StartsFresh(f)
      && Scan(AppendLine(f, RecordLine(r))).corrupt
  {
    var f := File([MetaLine(m), Garbage, Blank], true);
    var two := [MetaLine(m), Garbage];
    TornGarbage(m);
    AppendIsReadableIff(f, r);
    hide Scan, AppendLine;
    ScanSnoc([MetaLine(m)], Garbage);
    ScanSnoc(two, Blank);
    assert [MetaLine(m)] + [Garbage] == two && two + [Blank] == f.lines;
  }

  lemma TornGarbage(m: Meta)
    ensures !Scan(File([MetaLine(m), Garbage, Blank], true)).corrupt
  {
    var f := File([MetaLine(m), Garbage, Blank], true);
    var tx := f.lines[1..];
    assert tx == [Garbage, Blank] && tx[..1] == [Garbage];
    FilterAll([Garbage], IsText);
    assert Filter(tx, IsText) == [Garbage];
  }

  // A file that was readable only because its last line was torn becomes corrupt
  // once something is appended behind that line.
  lemma AppendBehindTornLineCorrupts(m: Meta, rs: seq<Record>, r: Record)
    ensures var f := File(Encode(m, rs).lines + [Garbage], true);
            && !Scan(f).corrupt && Scan(f).records == rs
            && Scan(AppendLine(f, RecordLine(r))).corrupt
  {
    var f := File(Encode(m, rs).lines + [Garbage], true);
    var tx := RecordLines(rs) + [Garbage];
    assert f.lines[1..] == tx;
    FilterAll(tx, IsText);
    ParseWithTail(rs, true);
    var g := AppendLine(f, RecordLine(r));
    assert g.lines == f.lines;
    ParseWithTail(rs, false);
  }

  lemma {:induction false} ParseWithTail(rs: seq<Record>, torn: bool)
    ensures Parse(RecordLines(rs) + [Garbage], torn) == if torn then Some(rs) else None
  {
    if rs != [] {
      var tx := RecordLines(rs) + [Garbage];
      assert tx[1..] == RecordLines(rs[1..]) + [Garbage];
      assert tx[0] == RecordLine(rs[0]);
      ParseWithTail(rs[1..], torn);
      assert [rs[0]] + rs[1..] == rs;
    }
  }

  // An eviction that rewrites the file keeps what the file says about
  // "file_dropped is unknown" exactly when its first line still parses as metadata.
  lemma EvictKeepsUnknownIff(s: Store)
    requires s.file.lines != [] && Evict(s, false) != s
    ensures Scan(Evict(s, false).file).metaInconsistent == Scan(s.file).metaInconsistent
            <==> s.file.lines[0].MetaLine?
  {
  }

  lemma ScanBehindUnreadableMeta(rs: seq<Record>)
    ensures Scan(File([Garbage] + RecordLines(rs), false))
         == ScanResult(rs, 0, 0, true, false, HasLegacy(rs))
  {
    var f := File([Garbage] + RecordLines(rs), false);
    assert f.lines[1..] == RecordLines(rs);
    FilterAll(RecordLines(rs), IsText);
    ParseOfRecords(rs, false);
  }

  // Reached by an ordinary append: a full file whose metadata line is unreadable
  // reports an unknown drop count before the append and a clean 2 after it, with
  // the unreadable metadata line itself counted as a dropped record.
  lemma EvictLaundersUnknown(rs: seq<Record>, t: Transition)
    requires |rs| == FILE_TRANSITION_CAPACITY && !HasLegacy(rs)
    ensures var f := File([Garbage] + RecordLines(rs), false);
            && Scan(f).metaInconsistent && !Scan(f).corrupt
            && var after := Append(Open(f, false), t, AppendIO(false, false, false)).file;
            && !Scan(after).metaInconsistent && Scan(after).fileDropped == 2
            && Scan(after).records == rs[1..] + [Record(MaxSeq(rs, 0) + 1, t)]
  {
    var f := File([Garbage] + RecordLines(rs), false);
    ScanBehindUnreadableMeta(rs);
    var n := MaxSeq(rs, 0) + 1;
    var s1 := AfterWrite(Open(f, false), t);
    var kept := rs[1..] + [Record(n, t)];
    assert s1 == Store(File(f.lines + [RecordLine(Record(n, t))], false), |rs| + 1, 0, n, false);
    EvictBehindUnreadableMeta(s1, rs, n, t);
    ScanOfEncode(Meta(2, n, false), kept);
  }

  lemma EvictBehindUnreadableMeta(s: Store, rs: seq<Record>, n: int, t: Transition)
    requires |rs| == FILE_TRANSITION_CAPACITY
    requires s == Store(File([Garbage] + RecordLines(rs) + [RecordLine(Record(n, t))], false), |rs| + 1, 0, n, false)
    ensures Evict(s, false).file == Encode(Meta(2, n, false), rs[1..] + [Record(n, t)])
  {
    var kept := RecordLines(rs[1..] + [Record(n, t)]);
    assert s.file.lines[2..] == kept;
  }
}
