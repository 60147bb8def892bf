/** When what is remembered of a process is exactly its live rules, on every run. */
module RuleStale {
  import opened Net
  import opened RuleListing
  import opened RuleChain
  import opened RuleRuns

  /** The processes whose rules a flush took away without their being forgotten: all that were
      remembered when a flush went unreported, until a later one is reported or the process is
      blocked or unblocked. */
  ghost function StaleAfter(s: State, ops: seq<Op>): set<U32>
    decreases |ops|
  {
    if |ops| == 0 then {}
    else
      var prefix := ops[..|ops| - 1];
      match ops[|ops| - 1]
      case BlockOp(pid, _, _, _, _, _) => StaleAfter(s, prefix) - {pid}
      case UnblockOp(pid, _) => StaleAfter(s, prefix) - {pid}
      case UnblockAllOp(flushed) =>
        match flushed
        case Rejected => StaleAfter(s, prefix)
        case Unreported => Run(s, prefix).tracked.Keys
        case Done => {}
  }

  ghost predicate RemembersGone(s: State, p: U32)
    requires p in s.tracked
  {
    HandlesOf(s.chain, p) == [] && |s.tracked[p]| > 0
  }

  /** The stale processes have no rules left; of the others, exactly their rules are remembered. */
  ghost predicate Accurate(s: State, stale: set<U32>) {
    && stale <= s.tracked.Keys
    && forall p :: p in s.tracked ==> if p in stale then RemembersGone(s, p) else RemembersRules(s, p)
  }

  lemma AccurateIsExact(s: State, stale: set<U32>)
    requires Accurate(s, stale)
    ensures Exact(s) <==> stale == {}
  {
    if p :| p in stale {
      assert RemembersGone(s, p);
    } else {
      forall p | p in s.tracked ensures s.tracked[p] == HandlesOf(s.chain, p) && |s.tracked[p]| > 0 {
        assert RemembersRules(s, p);
      }
    }
  }

  lemma TouchKeepsAccurate(s: State, s': State, pid: U32, stale: set<U32>)
    requires Accurate(s, stale) && OthersUntouched(s, s', pid)
    requires pid in s'.tracked ==> RemembersRules(s', pid)
    ensures Accurate(s', stale - {pid})
  {
    forall q | q in (s.tracked - {pid}).Keys + (s'.tracked - {pid}).Keys
      ensures q in s.tracked && q in s'.tracked && s'.tracked[q] == s.tracked[q]
      ensures HandlesOf(s'.chain, q) == HandlesOf(s.chain, q)
    {
      assert (s'.tracked - {pid}).Keys == (s.tracked - {pid}).Keys;
      assert s'.tracked[q] == (s'.tracked - {pid})[q] == (s.tracked - {pid})[q] == s.tracked[q];
    }
    forall q | q in stale - {pid} ensures q in s'.tracked {
      assert q in (s.tracked - {pid}).Keys;
    }
    forall q | q in s'.tracked
      ensures if q in stale - {pid} then RemembersGone(s', q) else RemembersRules(s', q)
    {
      if q != pid { assert q in (s'.tracked - {pid}).Keys; }
    }
  }

  lemma ApplyKeepsAccurate(s: State, ops: seq<Op>, op: Op)
    requires Sound(Run(s, ops)) && Accurate(Run(s, ops), StaleAfter(s, ops))
    requires op.BlockOp? ==> NameOk(op.pid, op.name)
    ensures Accurate(Apply(Run(s, ops), op).state, StaleAfter(s, ops + [op]))
  {
    var before, stale := Run(s, ops), StaleAfter(s, ops);
    assert (ops + [op])[..|ops|] == ops;
    match op {
      case BlockOp(pid, name, tcp, udp, uid, f) =>
        BlockKeepsSound(before, pid, name, tcp, udp, uid, f);
        BlockRemembers(before, pid, name, tcp, udp, uid, f);
        TouchKeepsAccurate(before, Apply(before, op).state, pid, stale);
      case UnblockOp(pid, f) =>
        UnblockTouchesOnly(before, pid, f);
        TouchKeepsAccurate(before, Apply(before, op).state, pid, stale);
      case UnblockAllOp(flushed) => FlushKeepsAccurate(before, stale, flushed);
    }
  }

  lemma FlushKeepsAccurate(s: State, stale: set<U32>, flushed: Outcome)
    requires Accurate(s, stale)
    ensures Accurate(UnblockAll(s, flushed).state,
                     match flushed case Rejected => stale case Unreported => s.tracked.Keys case Done => {})
  {
    var s' := UnblockAll(s, flushed).state;
    if flushed == Unreported {
      forall p | p in s'.tracked ensures RemembersGone(s', p) {
        assert if p in stale then RemembersGone(s, p) else RemembersRules(s, p);
      }
    }
  }

  lemma {:induction false} RunIsAccurate(s: State, ops: seq<Op>)
    requires Sound(s) && Exact(s) && NamesOk(ops)
    ensures Accurate(Run(s, ops), StaleAfter(s, ops))
    decreases |ops|
  {
    if |ops| > 0 {
      var prefix, op := ops[..|ops| - 1], ops[|ops| - 1];
      assert op in ops && ops == prefix + [op];
      RunIsAccurate(s, prefix);
      RunIsSound(s, prefix);
      ApplyKeepsAccurate(s, prefix, op);
    }
  }

  /** On every run, whatever fails, what is remembered is exactly the live rules if and only if no
      process is stale. */
  lemma ExactUnlessStale(s: State, ops: seq<Op>)
    requires Sound(s) && Exact(s) && NamesOk(ops)
    ensures Exact(Run(s, ops)) <==> StaleAfter(s, ops) == {}
  {
    RunIsAccurate(s, ops);
    AccurateIsExact(Run(s, ops), StaleAfter(s, ops));
  }

  ghost predicate FlushesReported(ops: seq<Op>) {
    forall op :: op in ops && op.UnblockAllOp? ==> op.flushed != Unreported
  }

  lemma {:induction false} NothingStale(s: State, ops: seq<Op>)
    requires FlushesReported(ops)
    ensures StaleAfter(s, ops) == {}
    decreases |ops|
  {
    if |ops| > 0 {
      assert ops[|ops| - 1] in ops;
      NothingStale(s, ops[..|ops| - 1]);
    }
  }

  /** In particular as long as no flush goes unreported. */
  lemma RunIsExact(s: State, ops: seq<Op>)
    requires Sound(s) && Exact(s) && NamesOk(ops) && FlushesReported(ops)
    ensures Exact(Run(s, ops))
  {
    NothingStale(s, ops);
    ExactUnlessStale(s, ops);
  }

  // ---- What a stale process costs ----

  lemma GoneFails(s: State, p: U32, f: UnblockFaults)
    requires Sound(s) && p in s.tracked && RemembersGone(s, p)
    ensures !Unblock(s, p, f).ok
  {
    var h := s.tracked[p][0];
    assert h in s.tracked[p] && Covered(s.chain, s.nextHandle, p, s.tracked[p]);
    if HasHandle(s.chain, h) {
      var r :| r in s.chain && r.handle == h;
      HandlesOfMember(s.chain, p, h);
    }
  }

  /** With nft in order, unblocking a process fails after a run if and only if it is stale; a
      second attempt then succeeds. */
  lemma UnblockFailsIfStale(s: State, ops: seq<Op>, p: U32, f: UnblockFaults, retry: UnblockFaults)
    requires Sound(s) && Exact(s) && NamesOk(ops) && InOrder(f) && InOrder(retry)
    ensures Unblock(Run(s, ops), p, f).ok <==> p !in StaleAfter(s, ops)
    ensures Unblock(Unblock(Run(s, ops), p, f).state, p, retry).ok
  {
    RunIsAccurate(s, ops);
    RunIsSound(s, ops);
    var before := Run(s, ops);
    RetrySucceeds(before, p, f, retry);
    if p in StaleAfter(s, ops) {
      GoneFails(before, p, f);
    } else {
      assert p in before.tracked ==> RemembersRules(before, p);
      RememberedSucceeds(before, p, f);
    }
  }

  lemma RememberedSucceeds(s: State, p: U32, f: UnblockFaults)
    requires Sound(s) && InOrder(f) && (p in s.tracked ==> RemembersRules(s, p))
    ensures Unblock(s, p, f).ok
  {
    FoundIsHandles(s.chain, p);
    OwnRulesDelete(s.chain, p, f.deleted);
  }
}
