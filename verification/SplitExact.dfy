/** Exactly when a cut is visible: the converse of the split law. */
module SplitExact {
  import opened Common
  import opened Lines
  import opened Timestamp
  import opened EntryState
  import opened LogParser

  /** The open entry, if there is one, has a plan to deliver. */
  predicate Delivers(env: Env, l: Loop) {
    !l.state.Idle? ==> Finish(env, l) != []
  }

  /** Every entry that a timestamped line or the end of the input finds open has a plan to deliver. */
  predicate Delivering(env: Env, lim: Limits, l: Loop, lines: seq<seq<byte>>)
    decreases |lines|
  {
    if lines == [] then Delivers(env, l)
    else
      && (StartsOrCloses(env, lines[0]) ==> Delivers(env, l))
      && Delivering(env, lim, Step(env, lim, l, lines[0]).0, lines[1..])
  }

  // ---- A parse that has lost its entry ----

  /** With no entry open, only a timestamped line changes anything, and nothing is delivered. */
  lemma IdleStep(env: Env, lim: Limits, l: Loop, raw: seq<byte>)
    requires l.state.Idle?
    ensures var (next, plans) := Step(env, lim, l, raw);
            plans == [] && next.entryBytes == 0 && (!StartsOrCloses(env, raw) ==> next.state.Idle?)
  {}

  /** An open entry goes on, or delivers its plan, or is closed by a timestamped line with its plan. */
  lemma OpenStep(env: Env, lim: Limits, m: Loop, raw: seq<byte>)
    requires !m.state.Idle? && !Overflows(lim, m, |raw|)
    ensures var (next, plans) := Step(env, lim, m, raw);
            if StartsOrCloses(env, raw) then plans == Finish(env, m)
            else next.state.Idle? <==> plans != []
  {}

  /** Whatever was open before it, a timestamped line leaves the same entry open, counted from less. */
  lemma AlikeAgain(env: Env, lim: Limits, l: Loop, m: Loop, raw: seq<byte>)
    requires l.state.Idle? && StartsOrCloses(env, raw)
    ensures Alike(Step(env, lim, m, raw).0, Step(env, lim, l, raw).0)
  {}

  /** The parse with no entry open misses at least the plan of the entry the other has open. */
  lemma {:induction false} IdleMissesOne(env: Env, lim: Limits, l: Loop, m: Loop, lines: seq<seq<byte>>)
    requires l.state.Idle? && !m.state.Idle?
    requires !Discards(env, lim, m, lines) && Delivering(env, lim, m, lines)
    ensures |RunToEnd(env, lim, l, lines)| < |RunToEnd(env, lim, m, lines)|
    decreases |lines|
  {
    if lines != [] {
      var l', m' := Step(env, lim, l, lines[0]).0, Step(env, lim, m, lines[0]).0;
      DiscardsStep(env, lim, m, lines);
      IdleStep(env, lim, l, lines[0]);
      OpenStep(env, lim, m, lines[0]);
      RunToEndStep(env, lim, l, lines);
      RunToEndStep(env, lim, m, lines);
      if StartsOrCloses(env, lines[0]) {
        AlikeAgain(env, lim, l, m, lines[0]);
        RunAlike(env, lim, m', l', lines[1..]);
      } else if m'.state.Idle? {
        IdleForgets(env, lim, l'.database, l'.entryBytes, m'.database, m'.entryBytes, lines[1..]);
      } else {
        IdleMissesOne(env, lim, l', m', lines[1..]);
      }
    }
  }

  /** A line at which only the first parse throws its entry away. */
  lemma OverflowMissesOne(env: Env, lim: Limits, l: Loop, m: Loop, lines: seq<seq<byte>>)
    requires Alike(l, m) && lines != [] && Overflows(lim, l, |lines[0]|)
    requires !Discards(env, lim, m, lines) && Delivering(env, lim, m, lines)
    ensures |RunToEnd(env, lim, l, lines)| < |RunToEnd(env, lim, m, lines)|
  {
    var dropped := Loop(Idle, l.database, 0);
    OverflowIsIdle(env, lim, l, lines[0]);
    RunToEndStep(env, lim, l, lines);
    RunToEndStep(env, lim, dropped, lines);
    IdleMissesOne(env, lim, dropped, m, lines);
  }

  lemma OverflowIsIdle(env: Env, lim: Limits, l: Loop, raw: seq<byte>)
    requires Overflows(lim, l, |raw|)
    ensures Step(env, lim, l, raw) == Step(env, lim, Loop(Idle, l.database, 0), raw)
  {}

  /** Of two parses at the same place, only one of which throws something away, that one delivers less. */
  lemma {:induction false} DiscardingMissesOne(env: Env, lim: Limits, l: Loop, m: Loop, lines: seq<seq<byte>>)
    requires Alike(l, m) && Discards(env, lim, l, lines)
    requires !Discards(env, lim, m, lines) && Delivering(env, lim, m, lines)
    ensures |RunToEnd(env, lim, l, lines)| < |RunToEnd(env, lim, m, lines)|
    decreases |lines|
  {
    if Overflows(lim, l, |lines[0]|) {
      OverflowMissesOne(env, lim, l, m, lines);
    } else {
      var l', m' := Step(env, lim, l, lines[0]).0, Step(env, lim, m, lines[0]).0;
      DiscardsStep(env, lim, l, lines);
      DiscardsStep(env, lim, m, lines);
      StepAlike(env, lim, l, m, lines[0]);
      DiscardingMissesOne(env, lim, l', m', lines[1..]);
      RunToEndStep(env, lim, l, lines);
      RunToEndStep(env, lim, m, lines);
    }
  }

  // ---- At a cut ----

  /** An open entry in front of a slice that meets the cap: the parse of both misses a plan. */
  lemma CutMissesOne(env: Env, lim: Limits, l: Loop, lines: seq<seq<byte>>)
    requires lines != [] && StartsOrCloses(env, lines[0]) && Finish(env, l) != []
    requires Discards(env, lim, l, lines)
    requires !Discards(env, lim, START, lines) && Delivering(env, lim, START, lines)
    ensures |RunToEnd(env, lim, l, lines)| < |Finish(env, l)| + |RunToEnd(env, lim, START, lines)|
  {
    var next, other := Step(env, lim, l, lines[0]).0, Step(env, lim, START, lines[0]).0;
    RunToEndStep(env, lim, l, lines);
    RunToEndStep(env, lim, START, lines);
    if Overflows(lim, l, |lines[0]|) {
      OverflowIsIdle(env, lim, l, lines[0]);
      IdleForgets(env, lim, l.database, 0, None, 0, lines);
      RunToEndStep(env, lim, Loop(Idle, l.database, 0), lines);
    } else {
      DiscardsStep(env, lim, l, lines);
      DiscardsStep(env, lim, START, lines);
      StartLineCloses(env, lim, l, lines[0]);
      DiscardingMissesOne(env, lim, next, other, lines[1..]);
    }
  }

  /** With no entry open at the cut, the second slice fares as it does on its own. */
  lemma NothingCarried(env: Env, lim: Limits, a: seq<byte>, b: seq<byte>)
    requires LoopAfter(env, lim, a).state.Idle?
    ensures CarriesOver(env, lim, a, b) <==> Intact(env, lim, b)
  {
    var l := LoopAfter(env, lim, a);
    IdleForgets(env, lim, l.database, l.entryBytes, None, 0, CutLines(FileLines(b), lim.maxLine));
  }

  /**
   * The condition of the split law is exact. Where the second slice on its own
   * loses no entry, and every entry has a plan to deliver, the parse of both
   * slices is that of one after the other if and only if the cap is not met
   * across the cut: otherwise at least one plan is missing.
   */
  lemma SplitLawExactly(env: Env, lim: Limits, a: seq<byte>, b: seq<byte>)
    requires TS_CORE_LEN <= lim.maxLine
    requires LineStart(a + b, NEWLINE, |a|) && StartsEntry(b)
    requires Intact(env, lim, b) && Delivering(env, lim, START, CutLines(FileLines(b), lim.maxLine))
    requires Delivers(env, LoopAfter(env, lim, a))
    ensures Plans(env, lim, a + b) == Plans(env, lim, a) + Plans(env, lim, b) <==> CarriesOver(env, lim, a, b)
  {
    if CarriesOver(env, lim, a, b) {
      SplitLaw(env, lim, a, b);
    } else {
      if LoopAfter(env, lim, a).state.Idle? {
        NothingCarried(env, lim, a, b);
      }
      MissingPlan(env, lim, a, b);
    }
  }

  lemma MissingPlan(env: Env, lim: Limits, a: seq<byte>, b: seq<byte>)
    requires TS_CORE_LEN <= lim.maxLine
    requires LineStart(a + b, NEWLINE, |a|) && StartsEntry(b)
    requires Intact(env, lim, b) && Delivering(env, lim, START, CutLines(FileLines(b), lim.maxLine))
    requires Finish(env, LoopAfter(env, lim, a)) != [] && !CarriesOver(env, lim, a, b)
    ensures |Plans(env, lim, a + b)| < |Plans(env, lim, a)| + |Plans(env, lim, b)|
  {
    var ca, cb := CutLines(FileLines(a), lim.maxLine), CutLines(FileLines(b), lim.maxLine);
    SplitAtLineStart(a, b, NEWLINE);
    CutLinesAppend(FileLines(a), FileLines(b), lim.maxLine);
    RunToEndAppend(env, lim, START, ca, cb);
    FirstLineStarts(env, lim, b);
    CutMissesOne(env, lim, LoopAfter(env, lim, a), cb);
  }

  // ---- Slices that lose entries of their own ----

  /** The cap throws away the same entries in both parses, at the same lines. */
  predicate LosesAlike(env: Env, lim: Limits, l: Loop, m: Loop, lines: seq<seq<byte>>)
    decreases |lines|
  {
    lines != [] ==>
      && (Overflows(lim, l, |lines[0]|) <==> Overflows(lim, m, |lines[0]|))
      && LosesAlike(env, lim, Step(env, lim, l, lines[0]).0, Step(env, lim, m, lines[0]).0, lines[1..])
  }

  lemma LosingStep(env: Env, lim: Limits, l: Loop, m: Loop, raw: seq<byte>)
    requires SamePlace(l, m) && (Overflows(lim, l, |raw|) <==> Overflows(lim, m, |raw|))
    ensures Step(env, lim, l, raw).1 == Step(env, lim, m, raw).1
    ensures SamePlace(Step(env, lim, l, raw).0, Step(env, lim, m, raw).0)
  {}

  lemma {:induction false} LosingAlike(env: Env, lim: Limits, l: Loop, m: Loop, lines: seq<seq<byte>>)
    requires SamePlace(l, m) && LosesAlike(env, lim, l, m, lines)
    ensures RunToEnd(env, lim, l, lines) == RunToEnd(env, lim, m, lines)
    decreases |lines|
  {
    if lines != [] {
      LosingStep(env, lim, l, m, lines[0]);
      LosingAlike(env, lim, Step(env, lim, l, lines[0]).0, Step(env, lim, m, lines[0]).0, lines[1..]);
      RunToEndStep(env, lim, l, lines);
      RunToEndStep(env, lim, m, lines);
    }
  }

  /** The cut itself costs nothing, and the second slice loses the same entries behind it as on its own. */
  predicate CutLosesNothing(env: Env, lim: Limits, l: Loop, lines: seq<seq<byte>>) {
    lines != [] ==>
      && !Overflows(lim, l, |lines[0]|)
      && LosesAlike(env, lim, Step(env, lim, l, lines[0]).0, Step(env, lim, START, lines[0]).0, lines[1..])
  }

  /** The split law for slices with entries that are too long in themselves. */
  lemma SplitLawDespiteLosses(env: Env, lim: Limits, a: seq<byte>, b: seq<byte>)
    requires TS_CORE_LEN <= lim.maxLine
    requires LineStart(a + b, NEWLINE, |a|) && StartsEntry(b)
    requires CutLosesNothing(env, lim, LoopAfter(env, lim, a), CutLines(FileLines(b), lim.maxLine))
    ensures Plans(env, lim, a + b) == Plans(env, lim, a) + Plans(env, lim, b)
  {
    if b == [] {
      assert a + b == a;
    } else {
      var ca, cb := CutLines(FileLines(a), lim.maxLine), CutLines(FileLines(b), lim.maxLine);
      var (mid, ps) := Run(env, lim, START, ca);
      SplitAtLineStart(a, b, NEWLINE);
      CutLinesAppend(FileLines(a), FileLines(b), lim.maxLine);
      RunToEndAppend(env, lim, START, ca, cb);
      FirstLineStarts(env, lim, b);
      LosingFromStart(env, lim, mid, cb);
      Assoc(ps, Finish(env, mid), RunToEnd(env, lim, START, cb));
    }
  }

  lemma LosingFromStart(env: Env, lim: Limits, l: Loop, lines: seq<seq<byte>>)
    requires lines != [] && StartsOrCloses(env, lines[0]) && CutLosesNothing(env, lim, l, lines)
    ensures RunToEnd(env, lim, l, lines) == Finish(env, l) + RunToEnd(env, lim, START, lines)
  {
    var next, other := Step(env, lim, l, lines[0]).0, Step(env, lim, START, lines[0]).0;
    StartLineCloses(env, lim, l, lines[0]);
    LosingAlike(env, lim, next, other, lines[1..]);
    RunToEndStep(env, lim, l, lines);
    RunToEndStep(env, lim, START, lines);
    assert RunToEnd(env, lim, START, lines) == RunToEnd(env, lim, other, lines[1..]);
  }

  // ---- A slice of one entry ----

  /** Lines none of which carries a timestamp. */
  predicate Continues(env: Env, lines: seq<seq<byte>>) {
    forall i :: 0 <= i < |lines| ==> !StartsOrCloses(env, lines[i])
  }

  lemma {:induction false} IdleDeliversNothing(env: Env, lim: Limits, l: Loop, lines: seq<seq<byte>>)
    requires l.state.Idle? && Continues(env, lines)
    ensures RunToEnd(env, lim, l, lines) == [] && !Discards(env, lim, l, lines) && Delivering(env, lim, l, lines)
    decreases |lines|
  {
    if lines != [] {
      assert !StartsOrCloses(env, lines[0]);
      IdleStep(env, lim, l, lines[0]);
      IdleDeliversNothing(env, lim, Step(env, lim, l, lines[0]).0, lines[1..]);
      RunToEndStep(env, lim, l, lines);
    }
  }

  /** For one entry, having delivered its plan says all that the converse asks for. */
  lemma {:induction false} DeliveredIsDelivering(env: Env, lim: Limits, l: Loop, lines: seq<seq<byte>>)
    requires Continues(env, lines) && RunToEnd(env, lim, l, lines) != []
    ensures !Discards(env, lim, l, lines) && Delivering(env, lim, l, lines)
    decreases |lines|
  {
    if lines != [] {
      assert !StartsOrCloses(env, lines[0]);
      var next := Step(env, lim, l, lines[0]).0;
      DiscardsStep(env, lim, l, lines);
      RunToEndStep(env, lim, l, lines);
      if Overflows(lim, l, |lines[0]|) {
        OverflowIsIdle(env, lim, l, lines[0]);
        IdleStep(env, lim, Loop(Idle, l.database, 0), lines[0]);
      }
      if next.state.Idle? {
        IdleDeliversNothing(env, lim, next, lines[1..]);
      } else {
        DeliveredIsDelivering(env, lim, next, lines[1..]);
      }
    }
  }
}
