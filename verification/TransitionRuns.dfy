// Whole runs of the durable transition store, started on a clean file: what is
// retained, what is counted as dropped, and which sequence numbers are issued.
module TransitionRuns {
  import opened Seqs
  import opened TransitionFile

  datatype Event =
    | AppendEvent(t: Transition, io: AppendIO)
    | ReadEvent
    | ReopenEvent

  function Step(s: Store, e: Event): Store {
    match e
    case AppendEvent(t, io) => Append(s, t, io)
    case ReadEvent => Refresh(s)
    case ReopenEvent => Open(s.file, false)
  }

  // The records that became durable, in order.
  function Written(s: Store, e: Event): seq<Record> {
    if e.AppendEvent? && Writes(s, e.io) then [Record(s.lastSeq + 1, e.t)] else []
  }

  function Run(s: Store, es: seq<Event>): Store {
    if es == [] then s else Step(Run(s, es[..|es| - 1]), es[|es| - 1])
  }

  function Issued(s: Store, es: seq<Event>): seq<Record> {
    if es == [] then []
    else Issued(s, es[..|es| - 1]) + Written(Run(s, es[..|es| - 1]), es[|es| - 1])
  }

  // ----- contents: what a clean file says -----

  datatype Contents = Contents(meta: Meta, records: seq<Record>)

  predicate Increasing(rs: seq<Record>) {
    |rs| <= 1 || (rs[|rs| - 2].seqNo < rs[|rs| - 1].seqNo && Increasing(rs[..|rs| - 1]))
  }

  lemma {:induction false} IncreasingPairs(rs: seq<Record>)
    ensures Increasing(rs) <==> forall i, j :: 0 <= i < j < |rs| ==> rs[i].seqNo < rs[j].seqNo
  {
    if |rs| > 1 {
      var init := rs[..|rs| - 1];
      IncreasingPairs(init);
      assert forall i :: 0 <= i < |init| ==> init[i] == rs[i];
      assert init[|init| - 1] == rs[|rs| - 2];
    }
  }

  lemma {:induction false} IncreasingSuffix(rs: seq<Record>, k: nat)
    requires Increasing(rs) && k <= |rs|
    ensures Increasing(rs[k..])
  {
    if |rs| - k > 1 {
      IncreasingSuffix(rs[..|rs| - 1], k);
      assert rs[k..][..|rs| - k - 1] == rs[..|rs| - 1][k..];
    }
  }

  // Trustworthy metadata and rising v2 sequence numbers.
  predicate Sound(c: Contents) {
    && !c.meta.inconsistent && c.meta.lastSeq >= 0
    && Increasing(c.records)
    && (c.records != [] ==> c.records[0].seqNo > 0)
  }

  function Watermark(c: Contents): int {
    MaxSeq(c.records, c.meta.lastSeq)
  }

  // The store that mirrors given contents.
  function StoreOf(c: Contents): Store {
    Store(Encode(c.meta, c.records), |c.records|, c.meta.fileDropped, Watermark(c), false)
  }

  function ContentsOf(s: Store): Contents {
    var r := Scan(s.file);
    Contents(Meta(r.fileDropped, r.metaLastSeq, r.metaInconsistent), r.records)
  }

  // A store whose file is a v2 file as the store writes it, mirrored in memory.
  predicate Clean(s: Store) {
    Sound(ContentsOf(s)) && s == StoreOf(ContentsOf(s))
  }

  lemma NoLegacy(c: Contents)
    requires Sound(c)
    ensures !HasLegacy(c.records)
  {
    IncreasingPairs(c.records);
  }

  lemma CleanOf(c: Contents)
    requires Sound(c)
    ensures ContentsOf(StoreOf(c)) == c && Clean(StoreOf(c))
  {
    ScanOfEncode(c.meta, c.records);
  }

  // A crash loses nothing: reopening a clean store's file gives that store back,
  // counters and watermark included, and so does a read.
  lemma ReopenIsIdentity(c: Contents, migrateFails: bool)
    requires Sound(c)
    ensures Open(StoreOf(c).file, migrateFails) == StoreOf(c)
    ensures Refresh(StoreOf(c)) == StoreOf(c)
  {
    ScanOfEncode(c.meta, c.records);
    NoLegacy(c);
  }

  // ----- one append, on contents -----

  function Written'(c: Contents, t: Transition, io: AppendIO): seq<Record> {
    if io.writeFails then [] else [Record(Watermark(c) + 1, t)]
  }

  // All records, or the newest CAPACITY of them with the rest counted as dropped.
  function Trim(m: Meta, all: seq<Record>, watermark: int): Contents {
    var evicted := |all| - FILE_TRANSITION_CAPACITY;
    if evicted <= 0 then Contents(m, all)
    else Contents(Meta(m.fileDropped + evicted, watermark, false), all[evicted..])
  }

  function AppendTo(c: Contents, t: Transition, io: AppendIO): Contents {
    if io.writeFails then c
    else
      var all := c.records + Written'(c, t, io);
      if io.evictFails then Contents(c.meta, all) else Trim(c.meta, all, Watermark(c) + 1)
  }

  lemma AddOnSound(c: Contents, r: Record)
    requires Sound(c) && r.seqNo == Watermark(c) + 1
    ensures var c' := Contents(c.meta, c.records + [r]);
            Sound(c') && Watermark(c') == r.seqNo
  {
    MaxSeqIsMax(c.records, c.meta.lastSeq);
    var all := c.records + [r];
    assert all[..|all| - 1] == c.records;
  }

  lemma TrimOnSound(c: Contents)
    requires Sound(c)
    ensures var c' := Trim(c.meta, c.records, Watermark(c));
            Sound(c') && Watermark(c') == Watermark(c)
  {
    var evicted := |c.records| - FILE_TRANSITION_CAPACITY;
    if evicted > 0 {
      var kept := c.records[evicted..];
      IncreasingSuffix(c.records, evicted);
      IncreasingPairs(c.records);
      MaxSeqIsMax(c.records, c.meta.lastSeq);
      MaxSeqIsMax(kept, Watermark(c));
    }
  }

  lemma WriteRefines(c: Contents, t: Transition)
    requires Sound(c)
    ensures AfterWrite(StoreOf(c), t)
         == StoreOf(Contents(c.meta, c.records + [Record(Watermark(c) + 1, t)]))
  {
    var r := Record(Watermark(c) + 1, t);
    AddOnSound(c, r);
    assert RecordLines(c.records + [r]) == RecordLines(c.records) + [RecordLine(r)];
    assert Encode(c.meta, c.records + [r]).lines == Encode(c.meta, c.records).lines + [RecordLine(r)];
  }

  lemma EvictRefines(c: Contents, fails: bool)
    requires Sound(c)
    ensures Evict(StoreOf(c), fails)
         == StoreOf(if fails then c else Trim(c.meta, c.records, Watermark(c)))
  {
    var evicted := |c.records| - FILE_TRANSITION_CAPACITY;
    var ls := StoreOf(c).file.lines;
    assert ls[1..] == RecordLines(c.records);
    if evicted > 0 && !fails {
      TrimOnSound(c);
      assert RecordLines(c.records)[evicted..] == RecordLines(c.records[evicted..]);
    }
  }

  // The store's Append, over the file and three counters, is AppendTo on contents.
  lemma AppendRefines(c: Contents, t: Transition, io: AppendIO)
    requires Sound(c)
    ensures Append(StoreOf(c), t, io) == StoreOf(AppendTo(c, t, io))
    ensures Sound(AppendTo(c, t, io))
  {
    hide Evict, Encode, MaxSeq, Sound, AfterWrite;
    if !io.writeFails {
      var all := Contents(c.meta, c.records + [Record(Watermark(c) + 1, t)]);
      WriteRefines(c, t);
      AddOnSound(c, Record(Watermark(c) + 1, t));
      EvictRefines(all, io.evictFails);
      TrimOnSound(all);
    }
  }

  // ----- whole runs -----

  predicate IsSuffix<T(==)>(r: seq<T>, h: seq<T>) {
    |r| <= |h| && r == h[|h| - |r|..]
  }

  lemma SuffixTransitive<T>(a: seq<T>, b: seq<T>, c: seq<T>)
    requires IsSuffix(a, b) && IsSuffix(b, c)
    ensures IsSuffix(a, c)
  {
  }

  // Contents c account for everything ever written, h: they hold a suffix of it and
  // count the rest, and every sequence number is new when it is issued.
  predicate Accounts(h: seq<Record>, total: int, c: Contents) {
    && Sound(c)
    && IsSuffix(c.records, h)
    && c.meta.fileDropped + |c.records| == total
    && Increasing(h)
    && (h != [] ==> 0 < h[0].seqNo && h[|h| - 1].seqNo <= Watermark(c))
  }

  lemma AccountsAfterAppend(h: seq<Record>, total: int, c: Contents, t: Transition, io: AppendIO)
    requires Accounts(h, total, c) && !io.writeFails
    ensures Accounts(h + [Record(Watermark(c) + 1, t)], total + 1, AppendTo(c, t, io))
    ensures Watermark(AppendTo(c, t, io)) == Watermark(c) + 1
  {
    var r := Record(Watermark(c) + 1, t);
    var all := Contents(c.meta, c.records + [r]);
    AddOnSound(c, r);
    TrimOnSound(all);
    assert IsSuffix(all.records, h + [r]);
    assert (h + [r])[..|h|] == h;
    SuffixTransitive(AppendTo(c, t, io).records, all.records, h + [r]);
  }

  lemma AccountsAtStart(s: Store)
    requires Clean(s)
    ensures var c := ContentsOf(s);
            Accounts(c.records, s.fileDropped + |c.records|, c)
  {
    hide ContentsOf, Increasing;
    MaxSeqIsMax(ContentsOf(s).records, ContentsOf(s).meta.lastSeq);
  }

  // Over any run of appends (failing or not), evictions, reads and reopens: what is
  // retained is a suffix of everything ever written, file_dropped counts exactly
  // the rest, sequence numbers only rise, by one per durable record, and none of
  // them is issued twice.
  lemma {:induction false} RunRetainsSuffix(s: Store, es: seq<Event>)
    requires Clean(s)
    ensures var h := ContentsOf(s).records + Issued(s, es);
            && Clean(Run(s, es))
            && Accounts(h, s.fileDropped + |h|, ContentsOf(Run(s, es)))
    ensures Run(s, es).lastSeq == s.lastSeq + |Issued(s, es)|
    ensures forall i :: 0 <= i < |Issued(s, es)| ==> Issued(s, es)[i].seqNo == s.lastSeq + 1 + i
  {
    hide Step, Clean, Written, ContentsOf, Accounts;
    var h := ContentsOf(s).records + Issued(s, es);
    if es == [] {
      assert h == ContentsOf(s).records;
      AccountsAtStart(s);
    } else {
      var es0, e := es[..|es| - 1], es[|es| - 1];
      RunRetainsSuffix(s, es0);
      var s0, h0 := Run(s, es0), ContentsOf(s).records + Issued(s, es0);
      assert h == h0 + Written(s0, e);
      StepAccounts(h0, s.fileDropped + |h0|, s0, e);
    }
  }

  lemma StepAccounts(h: seq<Record>, total: int, s: Store, e: Event)
    requires Clean(s) && Accounts(h, total, ContentsOf(s))
    ensures var w := Written(s, e);
            && Clean(Step(s, e))
            && Accounts(h + w, total + |w|, ContentsOf(Step(s, e)))
            && Step(s, e).lastSeq == s.lastSeq + |w|
            && |w| <= 1 && (w != [] ==> w[0].seqNo == s.lastSeq + 1)
            && Step(s, e).fileDropped >= s.fileDropped
  {
    hide Append, Open, Refresh, ContentsOf, Sound, MaxSeq, Encode, Accounts;
    var c := ContentsOf(s);
    assert h + [] == h;
    match e
    case AppendEvent(t, io) =>
      AppendRefines(c, t, io);
      CleanOf(AppendTo(c, t, io));
      if !io.writeFails {
        AccountsAfterAppend(h, total, c, t, io);
      }
    case _ => ReopenIsIdentity(c, false);
  }

  // An append whose eviction works leaves at most CAPACITY records, whatever
  // evictions failed before it.
  lemma AppendRestoresTheCap(s: Store, t: Transition, io: AppendIO)
    requires Clean(s) && !io.writeFails && !io.evictFails
    ensures var n := |ContentsOf(s).records| + 1;
            |ContentsOf(Append(s, t, io)).records| == if n <= FILE_TRANSITION_CAPACITY then n else FILE_TRANSITION_CAPACITY
  {
    AppendRefines(ContentsOf(s), t, io);
    CleanOf(AppendTo(ContentsOf(s), t, io));
  }

  // A close that fails after the sync still consumes its sequence number: the call
  // reports an error, the record is retained, and the next append goes past it.
  lemma CloseFailureConsumesItsSeq(s: Store, t: Transition, t': Transition, io': AppendIO)
    requires Clean(s) && !io'.writeFails
    ensures var io := AppendIO(false, true, true); var s1 := Append(s, t, io);
            && !AppendOk(s, t, io)
            && ContentsOf(s1).records == ContentsOf(s).records + [Record(s.lastSeq + 1, t)]
            && Written(s1, AppendEvent(t', io')) == [Record(s.lastSeq + 2, t')]
  {
    var io := AppendIO(false, true, true);
    AppendRefines(ContentsOf(s), t, io);
    CleanOf(AppendTo(ContentsOf(s), t, io));
    AddOnSound(ContentsOf(s), Record(s.lastSeq + 1, t));
  }

  // A new, empty file opens clean.
  lemma NewFileIsClean()
    ensures var s := Open(File([], false), false); Clean(s) && ContentsOf(s).records == []
  {
    ReopenIsIdentity(Contents(Meta(0, 0, false), []), false);
    CleanOf(Contents(Meta(0, 0, false), []));
  }

  // What a file says, with the metadata as read.
  function Said(f: File): Contents {
    var r := Scan(f);
    Contents(Meta(r.fileDropped, r.metaLastSeq, r.metaInconsistent), r.records)
  }

  lemma RenumberedIsSound(rs: seq<Record>, fileDropped: int)
    ensures Sound(Contents(Meta(fileDropped, |rs|, false), Renumber(rs)))
  {
    IncreasingPairs(Renumber(rs));
  }

  // A readable file with legacy records opens clean exactly when its drop count is known.
  lemma LegacyOpensCleanIff(f: File)
    requires f.lines != [] && !Scan(f).corrupt && Scan(f).legacy
    ensures Clean(Open(f, false)) <==> !Scan(f).metaInconsistent
    ensures Open(f, false).file == Migrated(f) && !Open(f, false).openErr
  {
    MigrationIsComplete(f);
    var r := Scan(f);
    if !r.metaInconsistent {
      var c := Contents(Meta(r.fileDropped, |r.records|, false), Renumber(r.records));
      RenumberedIsSound(r.records, r.fileDropped);
      CleanOf(c);
      hide Scan;
      assert Migrated(f) == Encode(c.meta, c.records);
      assert Open(f, false) == StoreOf(c);
    }
  }

  // The files from which runs start clean: the empty one, a legacy one whose drop count
  // is known, and one as the store writes it.
  lemma OpensCleanIff(f: File)
    ensures Clean(Open(f, false)) <==>
      || f.lines == []
      || (!Scan(f).corrupt && if Scan(f).legacy then !Scan(f).metaInconsistent
                              else Sound(Said(f)) && f == Encode(Said(f).meta, Said(f).records))
  {
    if f.lines == [] {
      assert Open(f, false) == Open(File([], false), false);
      NewFileIsClean();
    } else if Scan(f).corrupt {
      OpenOfCorrupt(f);
      ScanOfEncode(Said(f).meta, Said(f).records);
      assert Open(f, false).file == f;
    } else if Scan(f).legacy {
      LegacyOpensCleanIff(f);
    } else {
      hide Scan;
      assert Open(f, false) == Mirror(f, Scan(f));
    }
  }

  // Runs compose.
  lemma {:induction false} RunConcat(s: Store, a: seq<Event>, b: seq<Event>)
    ensures Run(s, a + b) == Run(Run(s, a), b)
    ensures Issued(s, a + b) == Issued(s, a) + Issued(Run(s, a), b)
  {
    hide Step, Written;
    if b == [] {
      assert a + b == a;
    } else {
      var ab := a + b;
      assert ab[..|ab| - 1] == a + b[..|b| - 1];
      RunConcat(s, a, b[..|b| - 1]);
    }
  }
}
