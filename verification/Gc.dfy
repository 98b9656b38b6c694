/**
 The garbage collector: it walks the lines of a keep list one at a time, gathers the
 hashes each walk found into a Bloom filter, hands the filter to the block cache for
 the sweep, may ask for a defragmentation, and reports once.
 */
module Gc {
  import opened Entries
  import opened Bloom
  import B = BlockStore

  datatype Phase = Collect | Sweep | Defrag

  /** How a walk ended: all found, or partly because of a cycle, or not at all. */
  datatype Walk = Complete | Cycle | Missing | Malformed

  /** Why a line failed, and which one. */
  datatype Failure = Failure(line: nat, cycle: bool)

  datatype Reply =
    | Collected(walk: Walk, hashes: seq<Option<Data>>)
    | CollectedNothing                                   // a reply without a payload
    | Swept(result: Option<B.Tally>)
    | Defragmented(ok: bool)

  datatype State = State(
    lines: seq<bool>,                 // whether each line of the keep list can be parsed
    wantsDefrag: bool,
    p: Params,
    keep: Option<Buckets>,
    nextLine: nat,
    collecting: bool,
    currentLine: nat,
    phase: Phase,
    collected: nat,
    failures: seq<Failure>,
    refused: bool,
    reported: bool,
    sent: Option<Buckets>,            // the filter handed to the sweep
    reports: nat,                     // reports sent
    gathered: set<Data>,              // every hash any walk brought
    nulls: nat)                       // walks that replied without a payload

  /** A new collection; without lines there is no filter. */
  function Created(lines: seq<bool>, wantsDefrag: bool, size: nat): State
  {
    State(lines, wantsDefrag, Params(if size == 0 then 256 else size, 4, 8, 1, 2),
          if lines == [] then None else Some(seq(if size == 0 then 256 else size, _ => [])),
          0, false, 0, Collect, 0, [], false, false, None, 0, {}, 0)
  }

  function Report(s: State): State
  {
    if s.reported then s else s.(reported := true, reports := s.reports + 1)
  }

  /** Start the next walk; lines that cannot be parsed fail at once. */
  function NextWalk(s: State): (r: State)
    decreases |s.lines| - s.nextLine
  {
    if s.collecting || s.nextLine >= |s.lines| then s
    else if s.lines[s.nextLine] then s.(collecting := true, currentLine := s.nextLine, nextLine := s.nextLine + 1)
    else NextWalk(s.(failures := s.failures + [Failure(s.nextLine, false)], nextLine := s.nextLine + 1))
  }

  /** The next walk or, after the last one, the sweep, unless nothing was resolved. */
  function CollectStep(s: State): State
  {
    if !s.phase.Collect? then s
    else
      var started := !s.collecting && NextWalk(s).collecting;
      var s := NextWalk(s);
      if started || s.nextLine < |s.lines| then s
      else if s.keep.None? then Report(s.(refused := true))
      else if s.collected == 0 && |s.failures| == |s.lines| then Report(s.(refused := true))
      else s.(phase := Sweep, keep := None, sent := s.keep)
  }

  /** Add the hashes the filter does not seem to have. */
  function Gathered(hash: Hasher, p: Params, b: Buckets, hashes: seq<Option<Data>>): (r: Buckets)
    requires p.size > 0 && |b| == p.size
    ensures |r| == |b|
  {
    if hashes == [] then b
    else
      var rest := Gathered(hash, p, b, hashes[..|hashes| - 1]);
      match hashes[|hashes| - 1]
      case None => rest
      case Some(h) => if Has(hash, p, rest, h) then rest else Added(hash, p, rest, h, p.hashCount)
  }

  function Named(hashes: seq<Option<Data>>): set<Data>
  {
    set o | o in hashes && o.Some? :: o.value
  }

  predicate Usable(s: State)
  {
    s.p.size > 0 && (s.keep.Some? ==> |s.keep.value| == s.p.size)
  }

  /** Which reply can arrive: that of the walk, the sweep or the defragmentation that
      was started and not answered yet. */
  predicate Expected(s: State, m: Reply)
  {
    match m
    case Collected(_, _) => s.collecting
    case CollectedNothing => s.collecting
    case Swept(_) => s.phase.Sweep? && !s.reported
    case Defragmented(_) => s.phase.Defrag? && !s.reported
  }

  /** A walk has ended: its hashes join the filter, and its line is resolved, fully or in
      part, or has failed. */
  function Answered(hash: Hasher, s: State, walk: Walk, hashes: seq<Option<Data>>): State
    requires Usable(s)
  {
    var keep := if s.keep.Some? then Some(Gathered(hash, s.p, s.keep.value, hashes)) else None;
    var s := s.(collecting := false, keep := keep, gathered := s.gathered + Named(hashes));
    var s := if walk.Complete? || walk.Cycle? then s.(collected := s.collected + 1) else s;
    if walk.Complete? then s else s.(failures := s.failures + [Failure(s.currentLine, walk.Cycle?)])
  }

  function Handle(hash: Hasher, s: State, m: Reply): State
    requires Usable(s)
  {
    match m
    case Collected(walk, hashes) =>
      CollectStep(Answered(hash, s, walk, hashes))
    case CollectedNothing =>
      CollectStep(s.(collecting := false, nulls := s.nulls + 1))
    case Swept(result) =>
      if result.None? then Report(s.(refused := true))
      else if s.wantsDefrag then s.(phase := Defrag)
      else Report(s)
    case Defragmented(_) => Report(s)
  }

  // ---- what every reply keeps ----

  ghost predicate Holds(hash: Hasher, p: Params, b: Buckets, hashes: set<Data>)
  {
    p.size > 0 && |b| == p.size && forall h | h in hashes :: Has(hash, p, b, h)
  }

  /** A line that was attempted is resolved, failed, being walked, or unanswered. */
  predicate Attempts(s: State)
  {
    && s.nextLine <= |s.lines|
    && |s.failures| + s.nulls + (if s.collecting then 1 else 0) <= s.nextLine
    && s.collected + s.nulls + (if s.collecting then 1 else 0) <= s.nextLine
    && s.nextLine <= |s.failures| + s.collected + s.nulls + (if s.collecting then 1 else 0)
  }

  predicate Waiting(s: State)
  {
    s.collecting || (s.phase.Sweep? && !s.reported) || (s.phase.Defrag? && !s.reported)
  }

  ghost predicate Inv(hash: Hasher, s: State)
  {
    && s.p.size > 0 && Attempts(s)
    && s.reports == (if s.reported then 1 else 0)
    && (s.phase.Collect? && s.keep.Some? ==> Holds(hash, s.p, s.keep.value, s.gathered))
    && (s.phase.Collect? && s.keep.None? <==> s.lines == [])
    && (s.phase.Collect? ==> s.sent.None?)
    && (s.phase.Collect? && !s.collecting ==>
          s.refused && s.collected == 0 && s.nulls == 0 && s.nextLine == |s.lines|)
    && (s.collecting ==> !s.refused)
    && (!s.phase.Collect? ==>
          && s.sent.Some? && Holds(hash, s.p, s.sent.value, s.gathered) && s.keep.None?
          && !s.collecting && s.nextLine == |s.lines| && (s.collected > 0 || s.nulls > 0))
    && (Waiting(s) <==> !s.reported)
  }

  lemma {:induction false} GatheredHolds(hash: Hasher, p: Params, b: Buckets, hashes: seq<Option<Data>>,
                                         before: set<Data>)
    requires Holds(hash, p, b, before)
    ensures Holds(hash, p, Gathered(hash, p, b, hashes), before + Named(hashes))
  {
    hide Has, Added, Below;
    if hashes == [] {
      assert before + Named(hashes) == before;
    } else {
      var init, last := hashes[..|hashes| - 1], hashes[|hashes| - 1];
      GatheredHolds(hash, p, b, init, before);
      assert hashes == init + [last];
      var rest := Gathered(hash, p, b, init);
      if last.Some? {
        AddIsFound(hash, p, rest, last.value);
        assert Named(hashes) == Named(init) + {last.value};
        forall h | h in before + Named(hashes)
          ensures Has(hash, p, Gathered(hash, p, b, hashes), h)
        {
          if h != last.value {
            if !Has(hash, p, rest, last.value) {
              HasMonotone(hash, p, rest, Added(hash, p, rest, last.value, p.hashCount), h);
            }
          }
        }
      } else {
        assert Named(hashes) == Named(init);
      }
    }
  }

  lemma {:induction false} NextWalkKeeps(s: State)
    requires Attempts(s)
    ensures Attempts(NextWalk(s)) && (NextWalk(s).collecting || NextWalk(s).nextLine == |s.lines|)
    ensures var r := NextWalk(s);
            r == s.(nextLine := r.nextLine, collecting := r.collecting, currentLine := r.currentLine,
                    failures := r.failures)
    decreases |s.lines| - s.nextLine
  {
    if !s.collecting && s.nextLine < |s.lines| && !s.lines[s.nextLine] {
      NextWalkKeeps(s.(failures := s.failures + [Failure(s.nextLine, false)], nextLine := s.nextLine + 1));
    }
  }

  lemma {:induction false} CollectKeeps(hash: Hasher, s: State)
    requires s.p.size > 0 && Attempts(s) && !s.collecting && !s.reported && s.reports == 0
    requires s.phase.Collect? && !s.refused && s.sent.None? && (s.keep.None? <==> s.lines == [])
    requires s.keep.Some? ==> Holds(hash, s.p, s.keep.value, s.gathered)
    ensures Inv(hash, CollectStep(s))
  {
    hide Holds, NextWalk;
    NextWalkKeeps(s);
  }

  lemma {:induction false} StartInv(hash: Hasher, lines: seq<bool>, wantsDefrag: bool, size: nat)
    ensures Inv(hash, CollectStep(Created(lines, wantsDefrag, size)))
  {
    CollectKeeps(hash, Created(lines, wantsDefrag, size));
  }

  lemma {:induction false} HandleKeeps(hash: Hasher, s: State, m: Reply)
    requires Inv(hash, s) && Expected(s, m)
    ensures Usable(s) && Inv(hash, Handle(hash, s, m))
  {
    match m
    case Collected(walk, hashes) =>
      hide CollectStep, Has, Gathered;
      GatheredHolds(hash, s.p, s.keep.value, hashes, s.gathered);
      CollectKeeps(hash, Answered(hash, s, walk, hashes));
    case CollectedNothing =>
      CollectKeeps(hash, s.(collecting := false, nulls := s.nulls + 1));
    case _ =>
  }

  /** The collection after some replies; None when one of them was not expected. */
  ghost function Run(hash: Hasher, start: State, replies: seq<Reply>): (r: Option<State>)
    requires Inv(hash, start)
    ensures r.Some? ==> Inv(hash, r.value)
  {
    if replies == [] then Some(start)
    else
      var s := Run(hash, start, replies[..|replies| - 1]);
      var m := replies[|replies| - 1];
      if s.None? || !Expected(s.value, m) then None
      else
        HandleKeeps(hash, s.value, m);
        Some(Handle(hash, s.value, m))
  }

  /** A walk that found its blocks, all or some. */
  predicate Resolves(m: Reply)
  {
    m.Collected? && (m.walk.Complete? || m.walk.Cycle?)
  }

  predicate AnyResolves(replies: seq<Reply>)
  {
    exists m | m in replies :: Resolves(m)
  }

  predicate AnyNull(replies: seq<Reply>)
  {
    CollectedNothing in replies
  }

  lemma CollectCounts(s: State)
    ensures CollectStep(s).collected == s.collected && CollectStep(s).nulls == s.nulls
  {
    NextWalkCounts(s);
  }

  lemma {:induction false} NextWalkCounts(s: State)
    ensures NextWalk(s).collected == s.collected && NextWalk(s).nulls == s.nulls
    decreases |s.lines| - s.nextLine
  {
    if !s.collecting && s.nextLine < |s.lines| && !s.lines[s.nextLine] {
      NextWalkCounts(s.(failures := s.failures + [Failure(s.nextLine, false)], nextLine := s.nextLine + 1));
    }
  }

  lemma {:induction false} HandleCounts(hash: Hasher, s: State, m: Reply)
    requires Usable(s)
    ensures Handle(hash, s, m).collected == s.collected + if Resolves(m) then 1 else 0
    ensures Handle(hash, s, m).nulls == s.nulls + if m.CollectedNothing? then 1 else 0
  {
    hide CollectStep, Gathered;
    match m
    case Collected(walk, hashes) =>
      CollectCounts(Answered(hash, s, walk, hashes));
    case CollectedNothing =>
      CollectCounts(s.(collecting := false, nulls := s.nulls + 1));
    case _ =>
  }

  /** The tallies say which replies came. */
  lemma {:induction false} RunCounts(hash: Hasher, start: State, replies: seq<Reply>)
    requires Inv(hash, start) && start.collected == 0 && start.nulls == 0 && Run(hash, start, replies).Some?
    ensures Run(hash, start, replies).value.collected > 0 <==> AnyResolves(replies)
    ensures Run(hash, start, replies).value.nulls > 0 <==> AnyNull(replies)
  {
    hide Handle, Inv;
    if replies != [] {
      var init, m := replies[..|replies| - 1], replies[|replies| - 1];
      assert replies == init + [m];
      RunCounts(hash, start, init);
      HandleKeeps(hash, Run(hash, start, init).value, m);
      HandleCounts(hash, Run(hash, start, init).value, m);
      assert AnyResolves(replies) <==> AnyResolves(init) || Resolves(m) by {
        if r :| r in replies && Resolves(r) {
          assert r in init || r == m;
        }
      }
    }
  }

  // ---- what the replies brought ----

  /** Some walk replied with this hash. */
  predicate Brought(replies: seq<Reply>, h: Data)
  {
    exists i | 0 <= i < |replies| :: replies[i].Collected? && Some(h) in replies[i].hashes
  }

  lemma BroughtMore(replies: seq<Reply>, m: Reply, h: Data)
    ensures Brought(replies + [m], h) <==> Brought(replies, h) || (m.Collected? && Some(h) in m.hashes)
  {
    var all := replies + [m];
    if i :| 0 <= i < |replies| && replies[i].Collected? && Some(h) in replies[i].hashes {
      assert all[i] == replies[i];
    }
    assert all[|replies|] == m;
  }

  lemma NextWalkGathers(s: State)
    ensures NextWalk(s).gathered == s.gathered && NextWalk(s).phase == s.phase
    decreases |s.lines| - s.nextLine
  {
  }

  lemma {:induction false} HandleGathers(hash: Hasher, s: State, m: Reply, h: Data)
    requires Usable(s)
    ensures h in Handle(hash, s, m).gathered <==> h in s.gathered || (m.Collected? && Some(h) in m.hashes)
  {
    hide NextWalk, Gathered;
    match m
    case Collected(walk, hashes) =>
      NextWalkGathers(Answered(hash, s, walk, hashes));
    case CollectedNothing =>
      NextWalkGathers(s.(collecting := false, nulls := s.nulls + 1));
    case _ =>
  }

  lemma {:induction false} RunGathers(hash: Hasher, start: State, replies: seq<Reply>, h: Data)
    requires Inv(hash, start) && start.gathered == {} && Run(hash, start, replies).Some?
    ensures h in Run(hash, start, replies).value.gathered <==> Brought(replies, h)
  {
    hide Handle, Inv;
    if replies != [] {
      var init, m := replies[..|replies| - 1], replies[|replies| - 1];
      assert replies == init + [m];
      RunGathers(hash, start, init, h);
      HandleKeeps(hash, Run(hash, start, init).value, m);
      HandleGathers(hash, Run(hash, start, init).value, m, h);
      BroughtMore(init, m, h);
    }
  }

  // ---- which lines failed ----

  /** The replies to walks, in order. */
  function Walks(replies: seq<Reply>): (r: seq<Reply>)
  {
    if replies == [] then []
    else
      var m := replies[|replies| - 1];
      Walks(replies[..|replies| - 1]) + if m.Collected? || m.CollectedNothing? then [m] else []
  }

  /** How many of the first n lines can be parsed, and so are walked. */
  function Parsed(lines: seq<bool>, n: nat): nat
    requires n <= |lines|
  {
    if n == 0 then 0 else Parsed(lines, n - 1) + if lines[n - 1] then 1 else 0
  }

  /** A line fails if it cannot be parsed or if the answer to its walk, the k-th for the
      k-th line that can be parsed, is not a complete one. */
  function Failed(lines: seq<bool>, n: nat, walks: seq<Reply>): seq<Failure>
    requires n <= |lines|
  {
    if n == 0 then []
    else
      var before, k := Failed(lines, n - 1, walks), Parsed(lines, n - 1);
      if !lines[n - 1] then before + [Failure(n - 1, false)]
      else if k < |walks| && walks[k].Collected? && !walks[k].walk.Complete? then
        before + [Failure(n - 1, walks[k].walk.Cycle?)]
      else before
  }

  /** So many walks were answered, and the failures are those of the lines so far. */
  predicate Listed(s: State, walks: seq<Reply>)
  {
    && s.nextLine <= |s.lines|
    && |walks| + (if s.collecting then 1 else 0) == Parsed(s.lines, s.nextLine)
    && (s.collecting ==> s.nextLine > 0 && s.currentLine == s.nextLine - 1 && s.lines[s.currentLine])
    && s.failures == Failed(s.lines, s.nextLine, walks)
  }

  lemma {:induction false} ParsedBelow(lines: seq<bool>, m: nat, n: nat)
    requires m < n <= |lines| && lines[m]
    ensures Parsed(lines, m) < Parsed(lines, n)
  {
    if m + 1 < n {
      ParsedBelow(lines, m, n - 1);
    }
  }

  /** A later answer does not change which earlier lines failed. */
  lemma {:induction false} FailedSame(lines: seq<bool>, n: nat, walks: seq<Reply>, m: Reply)
    requires n <= |lines| && Parsed(lines, n) <= |walks|
    ensures Failed(lines, n, walks + [m]) == Failed(lines, n, walks)
  {
    if n > 0 {
      FailedSame(lines, n - 1, walks, m);
      if lines[n - 1] {
        assert (walks + [m])[Parsed(lines, n - 1)] == walks[Parsed(lines, n - 1)];
      }
    }
  }

  lemma {:induction false} NextWalkListed(s: State, walks: seq<Reply>)
    requires Listed(s, walks)
    ensures Listed(NextWalk(s), walks) && NextWalk(s).lines == s.lines
    decreases |s.lines| - s.nextLine
  {
    if !s.collecting && s.nextLine < |s.lines| && !s.lines[s.nextLine] {
      NextWalkListed(s.(failures := s.failures + [Failure(s.nextLine, false)], nextLine := s.nextLine + 1), walks);
    }
  }

  lemma CollectListed(s: State, walks: seq<Reply>)
    requires Listed(s, walks)
    ensures Listed(CollectStep(s), walks)
  {
    hide NextWalk, Failed, Parsed;
    NextWalkListed(s, walks);
  }

  /** The walk of the current line was answered. */
  lemma {:induction false} AnsweredListed(s: State, walks: seq<Reply>, m: Reply)
    requires Listed(s, walks) && s.collecting && (m.Collected? || m.CollectedNothing?)
    ensures var failed := m.Collected? && !m.walk.Complete?;
            Listed(s.(collecting := false,
                      failures := s.failures + if failed then [Failure(s.currentLine, m.walk.Cycle?)] else []),
                   walks + [m])
  {
    var n := s.nextLine;
    assert Parsed(s.lines, n - 1) == |walks|;
    FailedSame(s.lines, n - 1, walks, m);
    assert (walks + [m])[|walks|] == m;
    assert Failed(s.lines, n, walks) == Failed(s.lines, n - 1, walks);
  }

  lemma {:induction false} HandleListed(hash: Hasher, s: State, m: Reply, walks: seq<Reply>)
    requires Usable(s) && Expected(s, m) && Listed(s, walks)
    ensures Listed(Handle(hash, s, m), walks + if m.Collected? || m.CollectedNothing? then [m] else [])
  {
    hide CollectStep, Gathered, Failed, Parsed;
    match m
    case Collected(walk, hashes) =>
      AnsweredListed(s, walks, m);
      assert s.failures + [] == s.failures;
      CollectListed(Answered(hash, s, walk, hashes), walks + [m]);
    case CollectedNothing =>
      AnsweredListed(s, walks, m);
      assert s.failures + [] == s.failures;
      CollectListed(s.(collecting := false, nulls := s.nulls + 1), walks + [m]);
    case _ =>
      assert walks + [] == walks;
  }

  lemma {:induction false} RunListed(hash: Hasher, start: State, replies: seq<Reply>)
    requires Inv(hash, start) && Listed(start, []) && Run(hash, start, replies).Some?
    ensures Listed(Run(hash, start, replies).value, Walks(replies))
  {
    hide Handle, Inv, Listed;
    if replies != [] {
      var init, m := replies[..|replies| - 1], replies[|replies| - 1];
      RunListed(hash, start, init);
      HandleKeeps(hash, Run(hash, start, init).value, m);
      HandleListed(hash, Run(hash, start, init).value, m, Walks(init));
    }
  }

  // ---- after the sweep ----

  predicate SweepFailed(replies: seq<Reply>)
  {
    Swept(None) in replies
  }

  predicate SweepDone(replies: seq<Reply>)
  {
    exists i | 0 <= i < |replies| :: replies[i].Swept? && replies[i].result.Some?
  }

  /** A defragmentation is under way or over exactly if one was wanted and the sweep
      succeeded, and the collection is refused when no sweep was sent or it failed. */
  predicate Finished(s: State, wants: bool, replies: seq<Reply>)
  {
    && s.wantsDefrag == wants
    && (s.phase.Defrag? <==> wants && SweepDone(replies))
    && (s.refused <==> (s.phase.Collect? && !s.collecting) || SweepFailed(replies))
  }

  lemma {:induction false} CollectFinished(hash: Hasher, s: State, wants: bool, replies: seq<Reply>)
    requires Attempts(s) && s.phase.Collect? && !s.collecting && !s.refused && s.wantsDefrag == wants
    requires !SweepDone(replies) && !SweepFailed(replies)
    ensures Finished(CollectStep(s), wants, replies)
  {
    hide NextWalk, SweepDone, SweepFailed;
    NextWalkKeeps(s);
  }

  lemma OneReplyMore(replies: seq<Reply>, m: Reply)
    ensures SweepFailed(replies + [m]) <==> SweepFailed(replies) || m == Swept(None)
    ensures SweepDone(replies + [m]) <==> SweepDone(replies) || (m.Swept? && m.result.Some?)
  {
    var all := replies + [m];
    if i :| 0 <= i < |replies| && replies[i].Swept? && replies[i].result.Some? {
      assert all[i] == replies[i];
    }
    assert all[|replies|] == m;
  }

  lemma {:induction false} HandleFinished(hash: Hasher, s: State, m: Reply, wants: bool, replies: seq<Reply>)
    requires Inv(hash, s) && Expected(s, m) && Finished(s, wants, replies)
    requires s.phase.Collect? ==> !SweepDone(replies) && !SweepFailed(replies)
    ensures Usable(s) && Finished(Handle(hash, s, m), wants, replies + [m])
    ensures Handle(hash, s, m).phase.Collect? ==> !SweepDone(replies + [m]) && !SweepFailed(replies + [m])
  {
    hide CollectStep, Gathered, Has, SweepDone, SweepFailed;
    OneReplyMore(replies, m);
    match m
    case Collected(walk, hashes) =>
      CollectFinished(hash, Answered(hash, s, walk, hashes), wants, replies + [m]);
    case CollectedNothing =>
      CollectFinished(hash, s.(collecting := false, nulls := s.nulls + 1), wants, replies + [m]);
    case _ =>
  }

  lemma {:induction false} RunFinished(hash: Hasher, start: State, replies: seq<Reply>, wants: bool)
    requires Inv(hash, start) && Finished(start, wants, []) && Run(hash, start, replies).Some?
    ensures Finished(Run(hash, start, replies).value, wants, replies)
    ensures Run(hash, start, replies).value.phase.Collect? ==> !SweepDone(replies) && !SweepFailed(replies)
  {
    hide Handle, Inv, Finished;
    if replies != [] {
      var init, m := replies[..|replies| - 1], replies[|replies| - 1];
      assert replies == init + [m];
      RunFinished(hash, start, init, wants);
      HandleKeeps(hash, Run(hash, start, init).value, m);
      HandleFinished(hash, Run(hash, start, init).value, m, wants, init);
    }
  }

  lemma {:induction false} Begins(hash: Hasher, lines: seq<bool>, wantsDefrag: bool, size: nat)
    ensures var s := CollectStep(Created(lines, wantsDefrag, size));
            && Inv(hash, s) && s.collected == 0 && s.nulls == 0 && s.gathered == {} && s.lines == lines
            && Listed(s, []) && Finished(s, wantsDefrag, [])
  {
    var s := Created(lines, wantsDefrag, size);
    StartInv(hash, lines, wantsDefrag, size);
    CollectCounts(s);
    NextWalkGathers(s);
    NextWalkListed(s, []);
    CollectFinished(hash, s, wantsDefrag, []);
    hide NextWalk, Inv, Finished, Failed, Parsed;
    CollectListed(s, []);
  }

  /** For every order of replies: while walks are outstanding no sweep has started;
      once they are not, one has started if and only if some walk resolved its line or
      replied without a payload, so it starts with nothing resolved exactly in the
      latter case alone, and otherwise the collection is refused.  The filter of the
      sweep has every hash that any reply brought.  The failures are those of the lines
      that cannot be parsed or whose walk was not complete, in order.  A defragmentation
      follows exactly a successful sweep when one was wanted.  The report is sent once,
      exactly when no reply is outstanding any more. */
  lemma {:induction false} CollectionSafe(hash: Hasher, lines: seq<bool>, wantsDefrag: bool, size: nat,
                                          replies: seq<Reply>)
    ensures Inv(hash, CollectStep(Created(lines, wantsDefrag, size)))
    ensures var r := Run(hash, CollectStep(Created(lines, wantsDefrag, size)), replies);
            r.Some? ==>
              var s := r.value;
              && (s.collecting ==> s.sent.None? && !s.refused)
              && (!s.collecting ==>
                    && s.nextLine == |s.lines| && s.failures == Failed(s.lines, |s.lines|, Walks(replies))
                    && (s.sent.Some? <==> AnyResolves(replies) || AnyNull(replies))
                    && (s.sent.None? ==> s.refused && s.reported))
              && (s.sent.Some? && s.collected == 0 <==> !s.collecting && !AnyResolves(replies) && AnyNull(replies))
              && (s.sent.Some? ==>
                    && s.p.size > 0 && |s.sent.value| == s.p.size
                    && forall h | Brought(replies, h) :: Has(hash, s.p, s.sent.value, h))
              && (s.refused <==> (s.sent.None? && !s.collecting) || SweepFailed(replies))
              && (s.phase.Defrag? <==> wantsDefrag && SweepDone(replies))
              && s.reports <= 1 && (s.reports == 1 <==> !Waiting(s))
  {
    Begins(hash, lines, wantsDefrag, size);
    var start := CollectStep(Created(lines, wantsDefrag, size));
    hide Run, CollectStep, Created, AnyResolves, AnyNull, Has, Failed, Walks, Brought, SweepDone, SweepFailed, Parsed;
    var r := Run(hash, start, replies);
    if r.Some? {
      assert Inv(hash, r.value);
      RunCounts(hash, start, replies);
      RunListed(hash, start, replies);
      RunFinished(hash, start, replies, wantsDefrag);
      forall h | Brought(replies, h)
        ensures h in r.value.gathered
      {
        RunGathers(hash, start, replies, h);
      }
    }
  }

  /** A single walk that replies without a payload starts a sweep with an empty filter. */
  lemma {:induction false} NullReplySweeps(hash: Hasher, wantsDefrag: bool, size: nat)
    ensures var s := CollectStep(Created([true], wantsDefrag, size));
            && s.collecting && Usable(s)
            && var r := Handle(hash, s, CollectedNothing);
               r.sent.Some? && r.collected == 0 && forall j | 0 <= j < |r.sent.value| :: r.sent.value[j] == []
  {
  }

  /** The entries of the index that the filter seems to have. */
  ghost function KeepSet(hash: Hasher, p: Params, b: Buckets, index: map<B.Digest, B.Rec>): set<B.Digest>
    requires p.size > 0 && |b| == p.size
  {
    set h | h in index && Has(hash, p, b, h)
  }

  /** End to end: a sweep with the filter of a collection deletes no block whose hash any
      reply of the collection brought. */
  lemma {:induction false} GatheredBlocksSurvive(hash: Hasher, lines: seq<bool>, wantsDefrag: bool, size: nat,
                                                 replies: seq<Reply>, c: B.Settings, store: B.Store, force: bool)
    requires Inv(hash, CollectStep(Created(lines, wantsDefrag, size)))
    requires Run(hash, CollectStep(Created(lines, wantsDefrag, size)), replies).Some?
    requires Run(hash, CollectStep(Created(lines, wantsDefrag, size)), replies).value.sent.Some?
    ensures var s := Run(hash, CollectStep(Created(lines, wantsDefrag, size)), replies).value;
            && s.p.size > 0 && |s.sent.value| == s.p.size
            && var after := B.Swept(c, store, KeepSet(hash, s.p, s.sent.value, store.index), force);
               forall h | h in store.index && Brought(replies, h) ::
                 h in after.index && after.index[h] == store.index[h]
  {
    hide Run, CollectStep, Created, Has, Brought;
    CollectionSafe(hash, lines, wantsDefrag, size, replies);
    var s := Run(hash, CollectStep(Created(lines, wantsDefrag, size)), replies).value;
    B.SweepExact(c, store, KeepSet(hash, s.p, s.sent.value, store.index), force);
  }

  /** Merge the hashes of one walk into the filter; its threshold of 1 rules out a
      resize. */
  method MergeCollected(keep: Filter, hashes: seq<Option<Data>>)
    requires keep.Valid() && keep.omega >= 1.0
    modifies keep, keep.buckets, keep.bits
    ensures keep.Valid() && keep.params == old(keep.params)
    ensures keep.buckets == old(keep.buckets) && keep.bits == old(keep.bits)
    ensures keep.buckets[..] == Gathered(keep.hash, keep.params, old(keep.buckets[..]), hashes)
  {
    hide Has, Added;
    var i := 0;
    while i < |hashes|
      invariant 0 <= i <= |hashes| && keep.Valid() && keep.params == old(keep.params)
      invariant keep.buckets == old(keep.buckets) && keep.bits == old(keep.bits)
      invariant keep.buckets[..] == Gathered(keep.hash, keep.params, old(keep.buckets[..]), hashes[..i])
    {
      assert hashes[..i + 1][..i] == hashes[..i];
      if hashes[i].Some? {
        var seen := keep.Contains(hashes[i].value);
        if !seen {
          var _, _ := keep.Add(hashes[i].value);
        }
      }
      i := i + 1;
    }
    assert hashes[..i] == hashes;
  }
}
