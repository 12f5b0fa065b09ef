/*
 * iblock_do_task: a task's scatter-gather list is split into bios. Each
 * bio starts at the sector the list has reached, takes entries until its
 * vector is full, and the bios are submitted IBLOCK_MAX_BIO_PER_TASK at a
 * time. Every allocated bio holds a reference on the request's pending
 * count; the submitter drops its own at the end.
 *
 * A bio's capacity is the number of vectors it was allocated with,
 * min(remaining entries, BIO_MAX_PAGES) (`maxPages`); whether an
 * allocation succeeds is an input: the first `allocLimit` allocations do.
 */
module IblockSubmit {
  import opened Common
  import opened TargetTypes
  import opened Iblock

  /** A bio: its starting 512-byte sector and the lengths of the entries it carries. */
  datatype Bio = Bio(sector: u64, pages: seq<nat>)

  /** The entries carried by a list of bios, in order. */
  function AllPages(bios: seq<Bio>): seq<nat>
  {
    if bios == [] then [] else bios[0].pages + AllPages(bios[1..])
  }

  /** The bios of a sequence of submissions, in submission order. */
  function Concat(batches: seq<seq<Bio>>): seq<Bio>
  {
    if batches == [] then [] else batches[0] + Concat(batches[1..])
  }

  /** The sectors covered by a run of entries, each length >> IBLOCK_LBA_SHIFT. */
  function SumSectors(s: seq<nat>): nat
  {
    if s == [] then 0 else s[0] / 512 + SumSectors(s[1..])
  }

  /**
   * The first bio starts at sector `s` (in 64-bit sector_t arithmetic) and
   * every later one where the entries of the bios before it end.
   */
  ghost predicate StartsAt(bios: seq<Bio>, s: nat)
  {
    bios == [] || (bios[0].sector == s % U64_LIMIT && StartsAt(bios[1..], s + SumSectors(bios[0].pages)))
  }

  /** Every bio is full. */
  ghost predicate FullBios(bios: seq<Bio>, m: nat)
  {
    forall k :: 0 <= k < |bios| ==> |bios[k].pages| == m
  }

  /**
   * The split of `entries` from sector `start`: the bios carry the entries
   * in order, every bio but the last is full, the last carries at least
   * one entry (the only bio of an empty list carries none), and each bio
   * starts where the previous ones end.
   */
  ghost predicate WellSplit(bios: seq<Bio>, entries: seq<nat>, start: u64, m: nat)
  {
    |bios| >= 1
    && AllPages(bios) == entries
    && FullBios(bios[..|bios| - 1], m)
    && |bios[|bios| - 1].pages| <= m
    && (entries != [] ==> |bios[|bios| - 1].pages| >= 1)
    && StartsAt(bios, start)
  }

  /** Every submission so far has IBLOCK_MAX_BIO_PER_TASK bios. */
  ghost predicate FullBatches(batches: seq<seq<Bio>>)
  {
    forall j :: 0 <= j < |batches| ==> |batches[j]| == IBLOCK_MAX_BIO_PER_TASK
  }

  /** Every submission but the last has IBLOCK_MAX_BIO_PER_TASK bios; the last has 1 to 32. */
  ghost predicate WellBatched(batches: seq<seq<Bio>>)
  {
    |batches| >= 1
    && (forall j :: 0 <= j < |batches| - 1 ==> |batches[j]| == IBLOCK_MAX_BIO_PER_TASK)
    && 1 <= |batches[|batches| - 1]| <= IBLOCK_MAX_BIO_PER_TASK
  }

  /** The bios a list of n entries needs: one for an empty list, else n / m rounded up. */
  function BiosNeeded(n: nat, m: nat): nat
    requires m >= 1
  {
    if n == 0 then 1 else (n + m - 1) / m
  }

  lemma {:induction false} AllPagesAppend(a: seq<Bio>, b: seq<Bio>)
    ensures AllPages(a + b) == AllPages(a) + AllPages(b)
  {
    if a != [] {
      assert (a + b)[1..] == a[1..] + b;
      AllPagesAppend(a[1..], b);
    } else {
      assert a + b == b;
    }
  }

  lemma AllPagesSnoc(bios: seq<Bio>, b: Bio)
    ensures AllPages(bios + [b]) == AllPages(bios) + b.pages
  {
    AllPagesAppend(bios, [b]);
    assert AllPages([b]) == b.pages + AllPages([]);
  }

  lemma {:induction false} ConcatSnoc(batches: seq<seq<Bio>>, b: seq<Bio>)
    ensures Concat(batches + [b]) == Concat(batches) + b
  {
    if batches != [] {
      assert (batches + [b])[1..] == batches[1..] + [b];
      ConcatSnoc(batches[1..], b);
    } else {
      assert Concat([b]) == b + Concat([]);
    }
  }

  lemma {:induction false} AllPagesLength(bios: seq<Bio>, m: nat)
    requires FullBios(bios, m)
    ensures |AllPages(bios)| == |bios| * m
  {
    if bios != [] {
      var n := |bios| - 1;
      AllPagesLength(bios[1..], m);
      assert |bios| * m == n * m + m;
    }
  }

  lemma {:induction false} SumSectorsAppend(x: seq<nat>, y: seq<nat>)
    ensures SumSectors(x + y) == SumSectors(x) + SumSectors(y)
  {
    if x != [] {
      assert (x + y)[1..] == x[1..] + y;
      SumSectorsAppend(x[1..], y);
    } else {
      assert x + y == y;
    }
  }

  lemma SumSectorsSnoc(s: seq<nat>, e: nat)
    ensures SumSectors(s + [e]) == SumSectors(s) + e / 512
  {
    SumSectorsAppend(s, [e]);
    assert SumSectors([e]) == e / 512 + SumSectors([]);
  }

  lemma ModAddMod(a: nat, b: nat)
    ensures (a % U64_LIMIT + b) % U64_LIMIT == (a + b) % U64_LIMIT
  {
    var q := a / U64_LIMIT;
    assert a == U64_LIMIT * q + a % U64_LIMIT;
    assert a + b == U64_LIMIT * q + (a % U64_LIMIT + b);
    var t := a % U64_LIMIT + b;
    DivModUnique(a + b, U64_LIMIT, q + t / U64_LIMIT, t % U64_LIMIT);
  }

  /** Appending a bio that starts where the others end keeps the sector layout. */
  lemma {:induction false} ExtendSectors(bios: seq<Bio>, b: Bio, s: nat)
    requires StartsAt(bios, s)
    requires b.sector == (s + SumSectors(AllPages(bios))) % U64_LIMIT
    ensures StartsAt(bios + [b], s)
  {
    if bios == [] {
      assert [b][1..] == [];
    } else {
      var t := s + SumSectors(bios[0].pages);
      SumSectorsAppend(bios[0].pages, AllPages(bios[1..]));
      assert s + SumSectors(AllPages(bios)) == t + SumSectors(AllPages(bios[1..]));
      ExtendSectors(bios[1..], b, t);
      assert (bios + [b])[0] == bios[0];
      assert (bios + [b])[1..] == bios[1..] + [b];
    }
  }

  /** The bios before the unsubmitted ones keep the layout. */
  lemma {:induction false} StartsAtPrefix(a: seq<Bio>, b: seq<Bio>, s: nat)
    requires StartsAt(a + b, s)
    ensures StartsAt(a, s)
  {
    if a != [] {
      assert (a + b)[1..] == a[1..] + b;
      StartsAtPrefix(a[1..], b, s + SumSectors(a[0].pages));
    }
  }

  lemma FullPrefix(a: seq<Bio>, b: seq<Bio>, m: nat)
    requires FullBios(a + b, m)
    ensures FullBios(a, m)
  {
    forall k | 0 <= k < |a|
      ensures |a[k].pages| == m
    {
      assert a[k] == (a + b)[k];
    }
  }

  lemma ExtendFull(bios: seq<Bio>, b: Bio, m: nat)
    requires FullBios(bios, m) && |b.pages| == m
    ensures FullBios(bios + [b], m)
  {
  }

  /** Multiplying by m keeps the order. */
  lemma MulMono(m: nat, x: nat, y: nat)
    ensures x <= y ==> m * x <= m * y
  {
    if x <= y {
      var d: nat := y - x;
      assert m * y == m * x + m * d;
    }
  }

  /** a / m is at least b when a is at least b * m. */
  lemma DivAtLeast(a: nat, m: nat, b: nat)
    requires m >= 1 && a >= b * m
    ensures a / m >= b
  {
    var q, r := a / m, a % m;
    assert a == m * q + r;
    assert a < m * (q + 1);
    MulMono(m, q + 1, b);
  }

  /** With the last of n entries in a bio of 1 to m entries after `full` full bios, n needs full + 1 bios. */
  lemma BiosNeededExact(n: nat, m: nat, full: nat, last: nat)
    requires m >= 1 && n == full * m + last && (n == 0 ==> last == 0) && (n > 0 ==> 1 <= last <= m)
    ensures BiosNeeded(n, m) == full + 1
  {
    if n > 0 {
      assert n + m - 1 == m * (full + 1) + (last - 1);
      DivModUnique(n + m - 1, m, full + 1, last - 1);
    } else {
      MulMono(m, 1, full);
    }
  }

  /** With `full` full bios and entries still left, n needs more than `full` bios. */
  lemma BiosNeededMore(n: nat, m: nat, full: nat)
    requires m >= 1 && full * m < n
    ensures BiosNeeded(n, m) >= full + 1
  {
    DivAtLeast(n + m - 1, m, full + 1);
  }

  /** Closing a full bio keeps the layout of the finished bios. */
  lemma CloseBio(done: seq<Bio>, b: Bio, start: u64, m: nat)
    requires FullBios(done, m) && StartsAt(done, start) && |b.pages| == m
    requires b.sector == (start + SumSectors(AllPages(done))) % U64_LIMIT
    ensures FullBios(done + [b], m) && StartsAt(done + [b], start)
    ensures AllPages(done + [b]) == AllPages(done) + b.pages
  {
    ExtendSectors(done, b, start);
    ExtendFull(done, b, m);
    AllPagesSnoc(done, b);
  }

  /** The sector cursor after entry i. */
  lemma CursorStep(entries: seq<nat>, i: nat, start: u64)
    requires i < |entries|
    ensures ((start + SumSectors(entries[..i])) % U64_LIMIT + entries[i] / 512) % U64_LIMIT
            == (start + SumSectors(entries[..i + 1])) % U64_LIMIT
  {
    assert entries[..i + 1] == entries[..i] + [entries[i]];
    SumSectorsSnoc(entries[..i], entries[i]);
    ModAddMod(start + SumSectors(entries[..i]), entries[i] / 512);
  }

  /** Once every entry is in a bio, the finished bios and the last one are the split. */
  lemma SplitComplete(done: seq<Bio>, last: Bio, entries: seq<nat>, start: u64, m: nat)
    requires m >= 1 && AllPages(done) + last.pages == entries
    requires FullBios(done, m) && StartsAt(done, start) && |last.pages| <= m
    requires entries != [] ==> |last.pages| >= 1
    requires last.sector == (start + SumSectors(AllPages(done))) % U64_LIMIT
    ensures WellSplit(done + [last], entries, start, m)
    ensures BiosNeeded(|entries|, m) == |done| + 1
  {
    ExtendSectors(done, last, start);
    AllPagesSnoc(done, last);
    AllPagesLength(done, m);
    assert (done + [last])[..|done|] == done;
    BiosNeededExact(|entries|, m, |done|, |last.pages|);
  }

  /** When an allocation fails, the submitted bios are full, laid out, and fewer than needed. */
  lemma SplitStopped(submitted: seq<seq<Bio>>, list: seq<Bio>, done: seq<Bio>, entries: seq<nat>, i: nat, start: u64, m: nat)
    requires m >= 1 && i < |entries| && Concat(submitted) + list == done
    requires AllPages(done) == entries[..i] && FullBios(done, m) && StartsAt(done, start)
    ensures FullBios(Concat(submitted), m) && StartsAt(Concat(submitted), start)
    ensures AllPages(Concat(submitted)) <= entries
    ensures BiosNeeded(|entries|, m) >= |done| + 1
  {
    AllPagesLength(done, m);
    BiosNeededMore(|entries|, m, |done|);
    AllPagesAppend(Concat(submitted), list);
    StartsAtPrefix(Concat(submitted), list, start);
    FullPrefix(Concat(submitted), list, m);
  }

  /**
   * The state of the splitting loop after `i` entries: the finished bios
   * `done` are the submitted batches and the queue, full and laid out from
   * `start`; the open bio starts where they end and holds the rest of the
   * first i entries; the cursor is the sector after entry i - 1.
   */
  ghost predicate Laid(submitted: seq<seq<Bio>>, list: seq<Bio>, done: seq<Bio>, entries: seq<nat>, i: nat,
                       start: u64, m: nat, curSector: u64, curPages: seq<nat>, cursor: u64)
  {
    i <= |entries|
    && Concat(submitted) + list == done
    && AllPages(done) + curPages == entries[..i]
    && FullBios(done, m) && StartsAt(done, start)
    && curSector == (start + SumSectors(AllPages(done))) % U64_LIMIT
    && cursor == (start + SumSectors(entries[..i])) % U64_LIMIT
    && FullBatches(submitted) && |list| < IBLOCK_MAX_BIO_PER_TASK
  }

  /** Adding entry i to the open bio. */
  lemma LaidAppend(submitted: seq<seq<Bio>>, list: seq<Bio>, done: seq<Bio>, entries: seq<nat>, i: nat,
                   start: u64, m: nat, curSector: u64, curPages: seq<nat>, cursor: u64)
    requires i < |entries| && Laid(submitted, list, done, entries, i, start, m, curSector, curPages, cursor)
    ensures Laid(submitted, list, done, entries, i + 1, start, m, curSector, curPages + [entries[i]],
                 (cursor + entries[i] / 512) % U64_LIMIT)
  {
    assert entries[..i + 1] == entries[..i] + [entries[i]];
    CursorStep(entries, i, start);
  }

  /** Closing the full open bio `b` and queueing it; the next bio opens at the cursor. */
  lemma LaidClose(submitted: seq<seq<Bio>>, list: seq<Bio>, done: seq<Bio>, entries: seq<nat>, i: nat,
                  start: u64, m: nat, b: Bio, cursor: u64, submitted': seq<seq<Bio>>, list': seq<Bio>)
    requires Laid(submitted, list, done, entries, i, start, m, b.sector, b.pages, cursor) && |b.pages| == m
    requires Concat(submitted') + list' == Concat(submitted) + list + [b]
    requires FullBatches(submitted') && |list'| < IBLOCK_MAX_BIO_PER_TASK
    ensures Laid(submitted', list', done + [b], entries, i, start, m, cursor, [], cursor)
  {
    CloseBio(done, b, start, m);
  }

  /** Submitting the queue with one more bio after full batches is a well-batched submission. */
  lemma BatchedLast(submitted: seq<seq<Bio>>, list: seq<Bio>, last: Bio)
    requires FullBatches(submitted) && |list| < IBLOCK_MAX_BIO_PER_TASK
    ensures WellBatched(submitted + [list + [last]])
  {
    var all := submitted + [list + [last]];
    forall j | 0 <= j < |all| - 1
      ensures |all[j]| == IBLOCK_MAX_BIO_PER_TASK
    {
      assert all[j] == submitted[j];
    }
  }

  /** After the last entry, submitting the queue with the open bio completes the split. */
  lemma LaidComplete(submitted: seq<seq<Bio>>, list: seq<Bio>, done: seq<Bio>, entries: seq<nat>,
                     start: u64, m: nat, last: Bio, cursor: u64)
    requires m >= 1 && Laid(submitted, list, done, entries, |entries|, start, m, last.sector, last.pages, cursor)
    requires |last.pages| <= m && (entries != [] ==> |last.pages| >= 1)
    ensures WellBatched(submitted + [list + [last]])
    ensures WellSplit(Concat(submitted + [list + [last]]), entries, start, m)
    ensures BiosNeeded(|entries|, m) == |done| + 1
  {
    BatchedLast(submitted, list, last);
    ConcatSnoc(submitted, list + [last]);
    assert Concat(submitted + [list + [last]]) == done + [last];
    assert entries[..|entries|] == entries;
    SplitComplete(done, last, entries, start, m);
  }

  /** An allocation failing right after a bio was closed at entry i < |entries|. */
  lemma LaidStopped(submitted: seq<seq<Bio>>, list: seq<Bio>, done: seq<Bio>, entries: seq<nat>, i: nat,
                    start: u64, m: nat, cursor: u64)
    requires m >= 1 && i < |entries| && Laid(submitted, list, done, entries, i, start, m, cursor, [], cursor)
    ensures FullBios(Concat(submitted), m) && StartsAt(Concat(submitted), start)
    ensures AllPages(Concat(submitted)) <= entries
    ensures BiosNeeded(|entries|, m) >= |done| + 1
  {
    assert AllPages(done) == entries[..i];
    SplitStopped(submitted, list, done, entries, i, start, m);
  }

  /**
   * Queues a full bio: when IBLOCK_MAX_BIO_PER_TASK bios would be queued,
   * the queue with the bio is submitted as one batch and emptied.
   */
  method QueueBio(submitted: seq<seq<Bio>>, list: seq<Bio>, b: Bio) returns (submitted': seq<seq<Bio>>, list': seq<Bio>)
    requires |list| < IBLOCK_MAX_BIO_PER_TASK
    requires FullBatches(submitted)
    ensures Concat(submitted') + list' == Concat(submitted) + list + [b]
    ensures submitted' == submitted || submitted' == submitted + [list + [b]]
    ensures FullBatches(submitted')
    ensures |list'| < IBLOCK_MAX_BIO_PER_TASK
  {
    if |list| + 1 >= IBLOCK_MAX_BIO_PER_TASK {
      ConcatSnoc(submitted, list + [b]);
      submitted' := submitted + [list + [b]];
      list' := [];
    } else {
      submitted' := submitted;
      list' := list + [b];
    }
  }

  /** The open bio is full: it is queued (a full queue is submitted) and counted as laid down. */
  method CloseOpenBio(submitted: seq<seq<Bio>>, list: seq<Bio>, ghost done: seq<Bio>, entries: seq<nat>, i: nat,
                      start: u64, m: nat, curSector: u64, curPages: seq<nat>, cursor: u64)
    returns (submitted': seq<seq<Bio>>, list': seq<Bio>, ghost done': seq<Bio>)
    requires Laid(submitted, list, done, entries, i, start, m, curSector, curPages, cursor) && |curPages| == m
    ensures Laid(submitted', list', done', entries, i, start, m, cursor, [], cursor)
    ensures |done'| == |done| + 1
  {
    var b := Bio(curSector, curPages);
    submitted', list' := QueueBio(submitted, list, b);
    LaidClose(submitted, list, done, entries, i, start, m, b, cursor, submitted', list');
    done' := done + [b];
  }

  /**
   * The for_each_sg loop of iblock_do_task from its first bio on: `ok`
   * when every bio could be allocated, and then the last queue is
   * submitted and the submitter's reference dropped.
   */
  method SubmitEntries(req: Request, start: u64, entries: seq<nat>, maxPages: nat, allocLimit: nat)
    returns (ok: bool, submitted: seq<seq<Bio>>)
    requires req.Valid() && req.held && !req.caw && maxPages >= 1 && allocLimit >= 1
    modifies req
    ensures var needed := BiosNeeded(|entries|, maxPages);
      req.Valid() && req.errCount == old(req.errCount)
      && (ok <==> allocLimit >= needed)
      && (ok ==>
            WellBatched(submitted) && WellSplit(Concat(submitted), entries, start, maxPages)
            && !req.held && req.inflight == old(req.inflight) + needed
            && req.pending == old(req.pending) + needed - 1
            && (req.completion.Some? <==> req.pending == 0))
      && (!ok ==>
            FullBatches(submitted)
            && FullBios(Concat(submitted), maxPages) && StartsAt(Concat(submitted), start)
            && AllPages(Concat(submitted)) <= entries
            && req.held && req.pending == old(req.pending) + allocLimit
            && req.completion == old(req.completion))
  {
    var n := |entries|;
    submitted := [];
    req.GetBio();
    var allocs := 1;
    var sgNum := n;
    var curSector := start;
    var curPages: seq<nat> := [];
    var curCap := Min(sgNum, maxPages);
    var list: seq<Bio> := [];
    var cursor: u64 := start;
    ghost var done: seq<Bio> := [];
    var i := 0;
    var stopped := false;
    while i < n
      invariant 0 <= i <= n && sgNum == n - i && !stopped
      invariant Laid(submitted, list, done, entries, i, start, maxPages, curSector, curPages, cursor)
      invariant curCap == Min(|curPages| + sgNum, maxPages) && |curPages| <= curCap
      invariant i > 0 ==> |curPages| >= 1
      invariant allocs == |done| + 1 <= allocLimit
      invariant req.Valid() && req.held && !req.caw && req.errCount == old(req.errCount)
      invariant req.pending == old(req.pending) + allocs && req.inflight == old(req.inflight) + allocs
      invariant req.completion == old(req.completion)
    {
      var e := entries[i];
      if |curPages| >= curCap {
        // bio_add_page refuses the entry: queue the full bio and start the next one here.
        assert |curPages| == maxPages;
        submitted, list, done := CloseOpenBio(submitted, list, done, entries, i, start, maxPages, curSector, curPages, cursor);
        if allocs >= allocLimit {
          stopped := true;
          break;
        }
        req.GetBio();
        allocs := allocs + 1;
        curSector := cursor;
        curPages := [];
        curCap := Min(sgNum, maxPages);
      }
      LaidAppend(submitted, list, done, entries, i, start, maxPages, curSector, curPages, cursor);
      curPages := curPages + [e];
      cursor := (cursor + e / 512) % U64_LIMIT;
      sgNum := sgNum - 1;
      i := i + 1;
    }
    if stopped {
      LaidStopped(submitted, list, done, entries, i, start, maxPages, cursor);
      return false, submitted;
    }
    var last := Bio(curSector, curPages);
    LaidComplete(submitted, list, done, entries, start, maxPages, last, cursor);
    submitted := submitted + [list + [last]];
    req.SubmitterDone(0);
    return true, submitted;
  }

  /**
   * iblock_do_task for a request using iblock_bio_done. A pass-through
   * command is handed to exec_ps_buf_fn (`ps`) with the command's own LBA,
   * not converted to 512-byte sectors, and xparam 0, and returns 0. An unknown block
   * size is LOGICAL UNIT COMMUNICATION FAILURE with -ENOSYS; a failed bio
   * allocation is the same reason with -ENOMEM, and the bios already
   * submitted stay submitted while the submitter keeps its reference.
   * Otherwise the whole list is submitted and the submitter's reference
   * dropped.
   */
  method DoTask(req: Request, blockSize: nat, lba: u64, toDevice: bool, emulateWriteCache: u32,
                emulateFuaWrite: u32, fua: bool, psIop: bool, entries: seq<nat>, maxPages: nat, allocLimit: nat)
    returns (rc: int, reason: Option<SenseReason>, rw: Rw, submitted: seq<seq<Bio>>, ps: Option<BackendStep>)
    requires req.Valid() && req.held && !req.caw && maxPages >= 1
    modifies req
    ensures rw == WriteMode(toDevice, emulateWriteCache, emulateFuaWrite, fua)
    ensures psIop <==> ps.Some?
    ensures psIop ==> ps == Some(PsExec(lba, 0))
    ensures psIop || !KnownBlockSize(blockSize) ==>
      submitted == [] && req.pending == old(req.pending) && req.held && req.completion == old(req.completion)
    ensures psIop ==> rc == 0 && reason == None
    ensures !psIop && !KnownBlockSize(blockSize) ==> rc == -ENOSYS && reason == Some(LogicalUnitCommunicationFailure)
    ensures !psIop && KnownBlockSize(blockSize) ==>
      var start := BlockLba(blockSize, lba).value;
      var needed := BiosNeeded(|entries|, maxPages);
      req.Valid() && req.errCount == old(req.errCount)
      && (rc == 0 <==> allocLimit >= needed)
      && (rc == 0 ==>
            reason == None && WellBatched(submitted)
            && WellSplit(Concat(submitted), entries, start, maxPages)
            && !req.held && req.inflight == old(req.inflight) + needed
            && req.pending == old(req.pending) + needed - 1
            && (req.completion.Some? <==> req.pending == 0))
      && (rc != 0 ==>
            rc == -ENOMEM && reason == Some(LogicalUnitCommunicationFailure)
            && FullBatches(submitted)
            && FullBios(Concat(submitted), maxPages) && StartsAt(Concat(submitted), start)
            && AllPages(Concat(submitted)) <= entries
            && req.held && req.pending == old(req.pending) + allocLimit
            && req.completion == old(req.completion))
  {
    rw := WriteMode(toDevice, emulateWriteCache, emulateFuaWrite, fua);
    if psIop {
      return 0, None, rw, [], Some(PsExec(lba, 0));
    }
    var conv := BlockLba(blockSize, lba);
    if conv.Err? {
      return conv.rc, Some(conv.reason), rw, [], None;
    }
    if allocLimit == 0 {
      assert Concat([]) == [] && AllPages([]) == [];
      return -ENOMEM, Some(LogicalUnitCommunicationFailure), rw, [], None;
    }
    var ok;
    ok, submitted := SubmitEntries(req, conv.value, entries, maxPages, allocLimit);
    if ok {
      return 0, None, rw, submitted, None;
    }
    return -ENOMEM, Some(LogicalUnitCommunicationFailure), rw, submitted, None;
  }
}
