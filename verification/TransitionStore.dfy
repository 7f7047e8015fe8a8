// The store object over the durable file: every method is the step of
// TransitionFile / DurablePaging that its contract names.
module TransitionStore {
  import opened Seqs
  import opened TransitionFile
  import Paging = DurablePaging

  class FileBackedTransitionStore {
    var file: File
    var count: int
    var fileDropped: int
    var lastSeq: int
    var openErr: bool

    function View(): Store
      reads this
    {
      Store(file, count, fileDropped, lastSeq, openErr)
    }

    constructor (f0: File, migrateFails: bool)
      ensures View() == Open(f0, migrateFails)
    {
      file := Initialised(f0);
      count, fileDropped, lastSeq, openErr := 0, 0, 0, false;
      new;
      var r := ScanRecords();
      if r.corrupt {
        count, fileDropped := |r.records|, r.fileDropped;
        return;
      }
      if r.legacy {
        if migrateFails {
          openErr := true;
          return;
        }
        MigrateLocked(r);
        r := ScanRecords();
        if r.corrupt || r.legacy {
          openErr := true;
          return;
        }
      }
      count, fileDropped := |r.records|, r.fileDropped;
      lastSeq := HighestSeq(r.records, r.metaLastSeq);
    }

    // The recovery loop: the watermark in the metadata or a later record's number.
    static method HighestSeq(rs: seq<Record>, floor: int) returns (m: int)
      ensures m == MaxSeq(rs, floor)
    {
      m := floor;
      var i := 0;
      while i < |rs|
        invariant 0 <= i <= |rs|
        invariant m == MaxSeq(rs[..i], floor)
      {
        assert rs[..i + 1][..i] == rs[..i];
        if rs[i].seqNo > m {
          m := rs[i].seqNo;
        }
        i := i + 1;
      }
      assert rs[..i] == rs;
    }

    // Reads the file; the counters in memory follow what was found.
    method ScanRecords() returns (r: ScanResult)
      modifies this`count, this`fileDropped
      ensures r == Scan(file)
      ensures View() == Refresh(old(View()))
    {
      if file.lines == [] {
        count, fileDropped := 0, 0;
        return ScanResult([], 0, 0, false, false, false);
      }
      var dropped, metaSeq, inconsistent, start := 0, 0, true, 1;
      match file.lines[0] {
        case MetaLine(m) => dropped, metaSeq, inconsistent := m.fileDropped, m.lastSeq, m.inconsistent;
        case RecordLine(_) => start := 0;
        case _ =>
      }
      var tx := TextLines(file.lines[start..]);
      var parsed, legacy := ParseLines(tx, file.torn);
      if parsed.None? {
        count := |tx|;
        return ScanResult([], 0, metaSeq, inconsistent, true, false);
      }
      count, fileDropped := |parsed.value|, dropped;
      r := ScanResult(parsed.value, dropped, metaSeq, inconsistent, false, legacy);
    }

    static method TextLines(all: seq<Line>) returns (tx: seq<Line>)
      ensures tx == Filter(all, IsText)
    {
      tx := [];
      var i := 0;
      while i < |all|
        invariant 0 <= i <= |all|
        invariant tx == Filter(all[..i], IsText)
      {
        assert all[..i + 1][..i] == all[..i];
        if !all[i].Blank? {
          tx := tx + [all[i]];
        }
        i := i + 1;
      }
      assert all[..i] == all;
    }

    // Only an unreadable last line without a terminator is skipped.
    static method ParseLines(tx: seq<Line>, torn: bool) returns (parsed: Option<seq<Record>>, legacy: bool)
      ensures parsed == Parse(tx, torn)
      ensures parsed.Some? ==> legacy == HasLegacy(parsed.value)
    {
      var records: seq<Record> := [];
      legacy := false;
      var i := 0;
      assert tx[0..] == tx;
      assert Parse(tx, torn).Some? ==> [] + Parse(tx, torn).value == Parse(tx, torn).value;
      while i < |tx|
        invariant 0 <= i <= |tx|
        invariant Parse(tx, torn) == Prepend(records, Parse(tx[i..], torn))
        invariant legacy == HasLegacy(records)
      {
        assert tx[i..][1..] == tx[i + 1..];
        if tx[i].RecordLine? {
          PrependStep(records, tx[i].rec, Parse(tx[i + 1..], torn));
          legacy := legacy || tx[i].rec.seqNo == 0;
          records := records + [tx[i].rec];
        } else if !(i == |tx| - 1 && torn) {
          return None, false;
        }
        i := i + 1;
      }
      assert tx[i..] == [] && records + [] == records;
      parsed := Some(records);
    }

    method MigrateLocked(r: ScanResult)
      requires r == Scan(file) && !r.corrupt
      modifies this`file
      ensures file == Migrated(old(file))
    {
      var lines: seq<Line> :=
        [MetaLine(Meta(if r.metaInconsistent then 0 else r.fileDropped, |r.records|, r.metaInconsistent))];
      var i := 0;
      while i < |r.records|
        invariant 0 <= i <= |r.records|
        invariant file == old(file)
        invariant lines == Migrated(file).lines[..i + 1]
      {
        lines := lines + [RecordLine(Record(i + 1, r.records[i].transition))];
        i := i + 1;
      }
      file := File(lines, false);
    }

    method EvictLocked(fails: bool) returns (ok: bool)
      modifies this
      ensures View() == Evict(old(View()), fails)
      ensures ok == !fails
    {
      if fails {
        return false;
      }
      var start, inconsistent := 0, false;
      if file.lines != [] && file.lines[0].MetaLine? {
        start, inconsistent := 1, file.lines[0].meta.inconsistent;
      }
      var tx := file.lines[start..];
      if |tx| <= FILE_TRANSITION_CAPACITY {
        return true;
      }
      var evicted := |tx| - FILE_TRANSITION_CAPACITY;
      var dropped := fileDropped;
      if inconsistent {
        dropped := 0;
      }
      file := File([MetaLine(Meta(dropped + evicted, lastSeq, inconsistent))] + tx[evicted..], false);
      fileDropped := fileDropped + evicted;
      count := FILE_TRANSITION_CAPACITY;
      ok := true;
    }

    method Append(t: Transition, io: AppendIO) returns (ok: bool)
      modifies this
      ensures View() == TransitionFile.Append(old(View()), t, io)
      ensures ok == AppendOk(old(View()), t, io)
    {
      if openErr || io.writeFails {
        return false;
      }
      var seqNo := lastSeq + 1;
      file := AppendLine(file, RecordLine(Record(seqNo, t)));
      lastSeq := seqNo;
      count := count + 1;
      var evictOk := true;
      if count > FILE_TRANSITION_CAPACITY {
        evictOk := EvictLocked(io.evictFails);
      }
      ok := !io.closeFails && evictOk;
    }

    method Load() returns (r: LoadResult)
      modifies this`count, this`fileDropped
      ensures r == TransitionFile.Load(old(View()))
      ensures View() == if old(openErr) then old(View()) else Refresh(old(View()))
    {
      if openErr {
        return LoadResult([], 0, false, false, true);
      }
      var scan := ScanRecords();
      if scan.corrupt {
        return LoadResult([], 0, scan.metaInconsistent, true, false);
      }
      var out: seq<Transition> := [];
      var i := 0;
      while i < |scan.records|
        invariant 0 <= i <= |scan.records|
        invariant out == Transitions(scan.records)[..i]
      {
        out := out + [scan.records[i].transition];
        i := i + 1;
      }
      r := LoadResult(out, scan.fileDropped, scan.metaInconsistent, false, false);
    }

    method ReadBefore(cursor: Option<Paging.Token>, n: int, readFails: bool) returns (page: Paging.Page)
      modifies this`count, this`fileDropped
      ensures page == Paging.ReadBefore(old(View()), cursor, n, readFails)
      ensures View() == old(View()) || View() == Refresh(old(View()))
    {
      hide Scan, Refresh, Paging.Resolve, Paging.MintCursor, Paging.ParseCursor;
      if n <= 0 {
        return Paging.Page([], 0, false, false, None);
      }
      var limit := n;
      if limit > Paging.DURABLE_READ_MAX_LIMIT {
        limit := Paging.DURABLE_READ_MAX_LIMIT;
      }
      if limit > FILE_TRANSITION_CAPACITY {
        limit := FILE_TRANSITION_CAPACITY;
      }
      var seqNo := 0;
      if cursor.Some? {
        var parsed := Paging.ParseCursor(cursor.value);
        if parsed.Err? {
          return Paging.LoadError(Paging.InvalidCursor);
        }
        seqNo := parsed.value;
      }
      if openErr || readFails {
        return Paging.LoadError(Paging.ReadFailed);
      }
      var r := ScanRecords();
      if r.corrupt {
        return Paging.CorruptPage;
      }
      var end := |r.records|;
      if cursor.Some? {
        var found := Paging.Resolve(r.records, seqNo);
        if found.None? {
          return Paging.LoadError(Paging.CursorExpired);
        }
        end := found.value;
      }
      var start := 0;
      if end > limit {
        start := end - limit;
      }
      var out := NewestFirst(r.records[start..end]);
      var next := None;
      if start > 0 {
        next := Some(Paging.MintCursor(r.records[start].seqNo));
      }
      page := Paging.Page(out, r.fileDropped, r.metaInconsistent, start > 0, next);
    }

    // The loop that reverses a page.
    static method NewestFirst(sel: seq<Record>) returns (out: seq<Transition>)
      ensures out == Paging.NewestFirst(sel)
    {
      out := [];
      var i := |sel|;
      while i > 0
        invariant 0 <= i <= |sel|
        invariant |out| == |sel| - i
        invariant forall k :: 0 <= k < |out| ==> out[k] == sel[|sel| - 1 - k].transition
      {
        i := i - 1;
        out := out + [sel[i].transition];
      }
    }
  }

  function Prepend(a: seq<Record>, b: Option<seq<Record>>): Option<seq<Record>> {
    match b
    case None => None
    case Some(rs) => Some(a + rs)
  }

  lemma PrependStep(a: seq<Record>, r: Record, b: Option<seq<Record>>)
    ensures Prepend(a, Prepend([r], b)) == Prepend(a + [r], b)
  {
    if b.Some? {
      assert a + ([r] + b.value) == a + [r] + b.value;
    }
  }
}
