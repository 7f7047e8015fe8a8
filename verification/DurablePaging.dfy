// Bounded newest-first pages over the durable history, addressed by an opaque
// cursor, and what a client sees that follows the cursor while records are being
// appended and evicted between its pages.
module DurablePaging {
  import opened Seqs
  import opened Text
  import opened TransitionFile
  import opened TransitionRuns

  const DURABLE_READ_MAX_LIMIT: nat := 1000
  const CURSOR_PREFIX: string := "v2:"

  // A cursor token after base64 decoding, or one that does not decode.
  datatype Token = Undecodable | Decoded(text: string)

  datatype ReadError = InvalidCursor | CursorExpired | ReadFailed

  datatype Page =
    | Page(transitions: seq<Transition>, fileDropped: int, metaInconsistent: bool,
           hasMore: bool, next: Option<Token>)
    | CorruptPage
    | LoadError(error: ReadError)

  function MintCursor(seqNo: int): Token {
    Decoded(CURSOR_PREFIX + FormatInt(seqNo))
  }

  function ParseCursor(t: Token): Result<int, ReadError> {
    if t.Undecodable? || |t.text| < 3 || t.text[..3] != CURSOR_PREFIX then Err(InvalidCursor)
    else
      match ParseInt64(t.text[3..])
      case None => Err(InvalidCursor)
      case Some(n) => if n <= 0 then Err(InvalidCursor) else Ok(n)
  }

  // A minted cursor identifies its record again.
  lemma CursorRoundTrip(seqNo: int)
    requires 0 < seqNo <= MAX_INT64
    ensures ParseCursor(MintCursor(seqNo)) == Ok(seqNo)
  {
    ParseIntOfFormat(seqNo);
    var text := CURSOR_PREFIX + FormatNat(seqNo);
    assert text[..3] == CURSOR_PREFIX && text[3..] == FormatNat(seqNo);
  }

  // Any other token is refused: nothing is read as a position but the prefix followed by
  // a positive number.
  lemma CursorMeans(t: Token, n: int)
    ensures ParseCursor(t) == Ok(n) <==>
      t.Decoded? && CURSOR_PREFIX <= t.text && ParseInt64(t.text[|CURSOR_PREFIX|..]) == Some(n) && n > 0
    ensures ParseCursor(t).Err? ==> ParseCursor(t).error == InvalidCursor
  {
  }

  // The position of the first record with that sequence number.
  function Resolve(rs: seq<Record>, seqNo: int): (i: Option<nat>)
    ensures i.Some? ==> i.value < |rs| && rs[i.value].seqNo == seqNo
    ensures i.None? ==> forall k :: 0 <= k < |rs| ==> rs[k].seqNo != seqNo
  {
    if rs == [] then None
    else if rs[0].seqNo == seqNo then Some(0)
    else
      match Resolve(rs[1..], seqNo)
      case None =>
        assert forall k :: 1 <= k < |rs| ==> rs[k] == rs[1..][k - 1];
        None
      case Some(i) => Some(i + 1)
  }

  function NewestFirst(rs: seq<Record>): seq<Transition> {
    Reverse(Transitions(rs))
  }

  function Clamp(n: nat): (r: nat)
    ensures r <= n && r <= DURABLE_READ_MAX_LIMIT && (n > 0 ==> r > 0)
  {
    if n > DURABLE_READ_MAX_LIMIT then DURABLE_READ_MAX_LIMIT else n
  }

  // The page of at most n records below index end.
  function PageAt(r: ScanResult, end: nat, n: nat): Page
    requires end <= |r.records| && n > 0
  {
    var start := if end > n then end - n else 0;
    Page(NewestFirst(r.records[start..end]), r.fileDropped, r.metaInconsistent, start > 0,
         if start > 0 then Some(MintCursor(r.records[start].seqNo)) else None)
  }

  // `readFails` stands for a stat error, a file over the byte budget, an expired
  // deadline or an unreadable file; None is the empty cursor.
  function ReadBefore(s: Store, cursor: Option<Token>, n: int, readFails: bool): Page {
    if n <= 0 then Page([], 0, false, false, None)
    else if cursor.Some? && ParseCursor(cursor.value).Err? then LoadError(InvalidCursor)
    else if s.openErr || readFails then LoadError(ReadFailed)
    else
      var r := Scan(s.file);
      if r.corrupt then CorruptPage
      else if cursor.None? then PageAt(r, |r.records|, Clamp(n))
      else
        match Resolve(r.records, ParseCursor(cursor.value).value)
        case None => LoadError(CursorExpired)
        case Some(p) => PageAt(r, p, Clamp(n))
  }

  // Which answer a request gets. A malformed cursor is told before the file is looked at,
  // a failing read before corruption, corruption before an expired position; a page
  // repeats what the metadata line says and has a next cursor exactly when it says there
  // is more. A request for nothing gets an empty page that claims nothing.
  lemma AnswerMeans(s: Store, cursor: Option<Token>, n: int, readFails: bool)
    ensures var page, r := ReadBefore(s, cursor, n, readFails), Scan(s.file);
      var badCursor := cursor.Some? && forall k :: ParseCursor(cursor.value) != Ok(k);
      && (page == LoadError(InvalidCursor) <==> n > 0 && badCursor)
      && (page == LoadError(ReadFailed) <==> n > 0 && !badCursor && (s.openErr || readFails))
      && (page.CorruptPage? <==> n > 0 && !badCursor && !s.openErr && !readFails && r.corrupt)
      && (page == LoadError(CursorExpired) ==>
            cursor.Some? && !r.corrupt && forall q :: q in Readable(s.file.lines) ==> ParseCursor(cursor.value) != Ok(q.seqNo))
      && (page.Page? && n > 0 ==>
            && page.fileDropped == r.fileDropped && page.metaInconsistent == r.metaInconsistent
            && (page.hasMore <==> page.next.Some?) && |page.transitions| <= n)
      && (n <= 0 ==> page == Page([], 0, false, false, None))
  {
    if !Scan(s.file).corrupt {
      ScannedAreReadable(s.file);
    }
    hide Scan, Readable;
    if cursor.Some? && ParseCursor(cursor.value).Ok? {
      assert ParseCursor(cursor.value) == Ok(ParseCursor(cursor.value).value);
    }
    hide ParseCursor;
  }

  // ----- following the cursor -----

  // What happens before the next page, and how that page is asked for.
  datatype Turn = Turn(events: seq<Event>, n: nat, readFails: bool)

  datatype End = Exhausted | Expired | StillOpen(cursor: Option<Token>)

  datatype Walked = Walked(seen: seq<Transition>, end: End, store: Store)

  // A client that starts without a cursor and follows NextCursor; a failed read is
  // retried with the same cursor.
  function Walk(s: Store, cursor: Option<Token>, turns: seq<Turn>): Walked
    decreases |turns|
  {
    if turns == [] then Walked([], StillOpen(cursor), s)
    else
      var s' := Run(s, turns[0].events);
      match ReadBefore(s', cursor, turns[0].n, turns[0].readFails)
      case Page(ts, _, _, hasMore, next) =>
        if hasMore then
          var w := Walk(s', next, turns[1..]);
          w.(seen := ts + w.seen)
        else Walked(ts, Exhausted, s')
      case LoadError(CursorExpired) => Walked([], Expired, s')
      case _ => Walk(s', cursor, turns[1..])
  }

  // The history a store has written up to now: h ends with what it retains.
  ghost predicate Holds(h: seq<Record>, s: Store) {
    Clean(s) && Accounts(h, s.fileDropped + |ContentsOf(s).records|, ContentsOf(s))
  }

  // The index in h of the oldest retained record.
  function Oldest(h: seq<Record>, s: Store): int {
    |h| - |ContentsOf(s).records|
  }

  lemma {:induction false} RunHolds(h: seq<Record>, s: Store, es: seq<Event>)
    requires Holds(h, s)
    ensures Holds(h + Issued(s, es), Run(s, es))
    ensures Oldest(h, s) <= Oldest(h + Issued(s, es), Run(s, es))
    decreases |es|
  {
    hide Step, Clean, Written, ContentsOf, Sound, Increasing, Watermark;
    if es == [] {
      assert h + [] == h;
    } else {
      var es0 := es[..|es| - 1];
      RunHolds(h, s, es0);
      var s0, h0, e := Run(s, es0), h + Issued(s, es0), es[|es| - 1];
      StepAccounts(h0, s0.fileDropped + |ContentsOf(s0).records|, s0, e);
      CleanMirrors(s0);
      CleanMirrors(Step(s0, e));
      assert h + Issued(s, es) == h0 + Written(s0, e);
    }
  }

  lemma CleanMirrors(s: Store)
    requires Clean(s)
    ensures s.fileDropped == ContentsOf(s).meta.fileDropped
  {
  }

  lemma SeqNosRise(h: seq<Record>, i: nat, j: nat)
    requires Increasing(h) && i < |h| && j < |h|
    ensures h[i].seqNo < h[j].seqNo <==> i < j
    ensures h[i].seqNo == h[j].seqNo <==> i == j
  {
    IncreasingPairs(h);
  }

  // A cursor finds its record in what is still retained, h[o..], exactly when that
  // record was not evicted, and at the place the history puts it.
  lemma ResolveInHistory(h: seq<Record>, o: nat, b: nat)
    requires Increasing(h) && o <= |h| && b < |h|
    ensures Resolve(h[o..], h[b].seqNo) == if b < o then None else Some(b - o)
  {
    hide Increasing;
    if b >= o {
      assert h[o..][b - o] == h[b];
    }
    var found := Resolve(h[o..], h[b].seqNo);
    if found.Some? {
      assert h[o..][found.value] == h[o + found.value];
      SeqNosRise(h, o + found.value, b);
    }
  }

  lemma EvictedIsGone(h: seq<Record>, o: nat, i: nat)
    requires Increasing(h) && i < o <= |h|
    ensures h[i] !in h[o..]
  {
    hide Increasing;
    forall k | 0 <= k < |h[o..]| ensures h[o..][k] != h[i] {
      SeqNosRise(h, i, o + k);
    }
  }

  lemma NewestFirstConcat(a: seq<Record>, b: seq<Record>)
    ensures NewestFirst(a + b) == NewestFirst(b) + NewestFirst(a)
  {
    assert Transitions(a + b) == Transitions(a) + Transitions(b);
    ReverseConcat(Transitions(a), Transitions(b));
  }

  // A walk that stood before h[b] delivered exactly h[a..b], newest first; if it is
  // over, nothing older than what it delivered is retained.
  ghost predicate Delivered(w: Walked, h: seq<Record>, b: nat, a: nat) {
    && a <= b <= |h|
    && w.seen == NewestFirst(h[a..b])
    && match w.end
       case StillOpen(cursor) => a < |h| && cursor == Some(MintCursor(h[a].seqNo))
       case _ => forall i :: 0 <= i < a ==> h[i] !in ContentsOf(w.store).records
  }

  // The sequence numbers up to h[b] are int64 values.
  predicate Usable(h: seq<Record>, b: nat) {
    b < |h| && forall i :: 0 <= i <= b ==> 0 < h[i].seqNo <= MAX_INT64
  }

  // One page taken from retained records h[o..], before h[b].
  lemma PageOfHistory(h: seq<Record>, o: nat, b: nat, r: ScanResult, n: nat)
    requires o <= b <= |h| && r.records == h[o..] && n > 0
    ensures var start := if b - o > n then b - n else o;
            PageAt(r, b - o, n) == Page(NewestFirst(h[start..b]), r.fileDropped, r.metaInconsistent, start > o,
                                        if start > o then Some(MintCursor(h[start].seqNo)) else None)
  {
    var start := if b - o > n then b - n else o;
    assert r.records[start - o..b - o] == h[start..b];
  }

  lemma ReadRetained(h: seq<Record>, s: Store)
    requires Holds(h, s)
    ensures 0 <= Oldest(h, s) && ContentsOf(s).records == h[Oldest(h, s)..]
    ensures Scan(s.file).records == ContentsOf(s).records && !Scan(s.file).corrupt && !s.openErr
    ensures Increasing(h)
  {
    ScanOfEncode(ContentsOf(s).meta, ContentsOf(s).records);
  }

  // What ReadBefore answers on a clean store, as positions in the history.
  lemma ReadBeforeInHistory(h: seq<Record>, s: Store, b: nat, n: nat)
    requires Holds(h, s) && Usable(h, b) && n > 0
    ensures var o := Oldest(h, s); var k := Clamp(n);
            var start := if b - o > k then b - k else o;
            var page := ReadBefore(s, Some(MintCursor(h[b].seqNo)), n, false);
            if b < o then page == LoadError(CursorExpired)
            else page.Page? && page.transitions == NewestFirst(h[start..b]) && page.hasMore == (start > o)
                 && (start > o ==> page.next == Some(MintCursor(h[start].seqNo)))
  {
    hide ContentsOf, Clean, Sound, Accounts, Increasing, Scan;
    hide Resolve, PageAt, ParseCursor, MintCursor, NewestFirst;
    ReadRetained(h, s);
    CursorRoundTrip(h[b].seqNo);
    var o := Oldest(h, s);
    ResolveInHistory(h, o, b);
    if b >= o {
      PageOfHistory(h, o, b, Scan(s.file), Clamp(n));
    }
  }

  lemma AllEvicted(h: seq<Record>, s: Store, a: nat)
    requires Holds(h, s) && a <= Oldest(h, s)
    ensures forall i :: 0 <= i < a ==> h[i] !in ContentsOf(s).records
  {
    hide ContentsOf, Clean, Sound, Increasing;
    ReadRetained(h, s);
    forall i | 0 <= i < a ensures h[i] !in ContentsOf(s).records {
      EvictedIsGone(h, Oldest(h, s), i);
    }
  }

  // A page h[start..b] in front of what the rest of the walk delivers.
  lemma DeliveredBehindPage(w: Walked, h: seq<Record>, b: nat, start: nat, a: nat, rest: Walked)
    requires start <= b <= |h| && Delivered(rest, h, start, a)
    requires w == rest.(seen := NewestFirst(h[start..b]) + rest.seen)
    ensures Delivered(w, h, b, a)
  {
    assert h[a..b] == h[a..start] + h[start..b];
    NewestFirstConcat(h[a..start], h[start..b]);
  }

  lemma DeliveredInPrefix(w: Walked, h: seq<Record>, h': seq<Record>, b: nat, a: nat)
    requires h <= h' && b < |h| && Delivered(w, h', b, a)
    ensures Delivered(w, h, b, a)
  {
    assert h'[a..b] == h[a..b];
  }

  // Following the cursor from h[b], with any run of appends, evictions and reopens
  // before every page, delivers a stretch h[a..b] of the history without a gap or a
  // repetition, and stops only when nothing older is retained.
  lemma {:induction false} WalkDelivers(h: seq<Record>, s: Store, b: nat, turns: seq<Turn>) returns (a: nat)
    requires Holds(h, s) && Usable(h, b)
    requires forall t :: t in turns ==> t.n > 0
    ensures Delivered(Walk(s, Some(MintCursor(h[b].seqNo)), turns), h, b, a)
    decreases |turns|
  {
    hide Holds, MintCursor, Run, Issued, ContentsOf, NewestFirst, Oldest, Clamp, ReadBefore;
    a := b;
    EmptyPage(h, b);
    if turns != [] {
      var t, s', rest := turns[0], Run(s, turns[0].events), turns[1..];
      var h' := h + Issued(s, t.events);
      var w := Walk(s, Some(MintCursor(h[b].seqNo)), turns);
      RunHolds(h, s, t.events);
      if t.readFails {
        FailedRead(s', MintCursor(h[b].seqNo), t.n);
        a := WalkDelivers(h', s', b, rest);
      } else {
        ReadRetained(h', s');
        ReadBeforeInHistory(h', s', b, t.n);
        var o, k := Oldest(h', s'), Clamp(t.n);
        var start := if b - o > k then b - k else o;
        if b < o {
          EmptyPage(h', b);
          AllEvicted(h', s', b);
        } else if start > o {
          a := WalkDelivers(h', s', start, rest);
          DeliveredBehindPage(w, h', b, start, a, Walk(s', Some(MintCursor(h'[start].seqNo)), rest));
        } else {
          a := start;
          AllEvicted(h', s', start);
        }
      }
      DeliveredInPrefix(w, h, h', b, a);
    }
  }

  lemma EmptyPage(h: seq<Record>, b: nat)
    requires b <= |h|
    ensures NewestFirst(h[b..b]) == []
  {
  }

  lemma FailedRead(s: Store, cursor: Token, n: nat)
    requires n > 0
    ensures var page := ReadBefore(s, Some(cursor), n, true); page.LoadError? && !page.error.CursorExpired?
  {
  }

  // The page read without a cursor, as positions in the history.
  lemma FirstPageInHistory(h: seq<Record>, s: Store, n: nat)
    requires Holds(h, s) && n > 0
    ensures var o, k := Oldest(h, s), Clamp(n);
            var start := if |h| - o > k then |h| - k else o;
            var page := ReadBefore(s, None, n, false);
            && 0 <= o <= |h| && page.Page? && page.transitions == NewestFirst(h[start..|h|]) && page.hasMore == (start > o)
            && (start > o ==> page.next == Some(MintCursor(h[start].seqNo)))
  {
    hide ContentsOf, Clean, Sound, Accounts, Increasing, Scan, PageAt, MintCursor, NewestFirst;
    ReadRetained(h, s);
    PageOfHistory(h, Oldest(h, s), |h|, Scan(s.file), Clamp(n));
  }

  // A whole walk, from the empty cursor: let h be the history when its first page is
  // read. The pages are the newest |h| - a records of h, newest first, each exactly
  // once, and the walk ends only when no older record is retained.
  lemma WholeWalkDelivers(h0: seq<Record>, s0: Store, turns: seq<Turn>) returns (a: nat)
    requires Holds(h0, s0)
    requires turns != [] && !turns[0].readFails && forall t :: t in turns ==> t.n > 0
    requires var h := h0 + Issued(s0, turns[0].events); h != [] ==> Usable(h, |h| - 1)
    ensures var h := h0 + Issued(s0, turns[0].events);
            Delivered(Walk(s0, None, turns), h, |h|, a)
  {
    hide Holds, MintCursor, Run, Issued, ContentsOf, NewestFirst, Clamp, Oldest, ReadBefore;
    var s, rest := Run(s0, turns[0].events), turns[1..];
    var h := h0 + Issued(s0, turns[0].events);
    RunHolds(h0, s0, turns[0].events);
    ReadRetained(h, s);
    FirstPageInHistory(h, s, turns[0].n);
    var o, k := Oldest(h, s), Clamp(turns[0].n);
    a := if |h| - o > k then |h| - k else o;
    if a > o {
      var start := a;
      a := WalkDelivers(h, s, start, rest);
      DeliveredBehindPage(Walk(s0, None, turns), h, |h|, start, a, Walk(s, Some(MintCursor(h[start].seqNo)), rest));
    } else {
      AllEvicted(h, s, a);
    }
  }

  // The delivered stretch has strictly falling sequence numbers.
  lemma DeliveredFalls(h: seq<Record>, s: Store, a: nat, b: nat)
    requires Holds(h, s) && a <= b <= |h|
    ensures var r := Reverse(h[a..b]);
            Transitions(r) == NewestFirst(h[a..b])
            && forall i, j :: 0 <= i < j < |r| ==> r[i].seqNo > r[j].seqNo
  {
    IncreasingPairs(h);
  }
}
