/** What holds of the rule chain and the tracked handles after every run of block, unblock and
    unblock-all, whatever nft commands fail. */
module RuleRuns {
  import opened Net
  import opened RuleListing
  import opened RuleChain

  // ---- Unblock ----

  /** Every command that an unblocking may need is carried out. */
  ghost predicate InOrder(f: UnblockFaults) {
    f.listed && forall k :: f.deleted(k) == Done
  }

  /** Nothing of the other processes has changed: their rules, their order, and what is
      remembered of them. */
  ghost predicate OthersUntouched(before: State, after: State, pid: U32) {
    && Others(after.chain, pid) == Others(before.chain, pid)
    && (forall q: U32 :: q != pid ==> HandlesOf(after.chain, q) == HandlesOf(before.chain, q))
    && after.tracked - {pid} == before.tracked - {pid}
  }

  lemma OthersKeepHandles(before: seq<Rule>, after: seq<Rule>, next: nat, next': nat, pid: U32, q: U32)
    requires WellFormed(before, next) && WellFormed(after, next') && q != pid
    requires Others(after, pid) == Others(before, pid)
    ensures HandlesOf(after, q) == HandlesOf(before, q)
  {
    HandlesOfOthers(before, pid, q);
    HandlesOfOthers(after, pid, q);
  }

  lemma UnblockShrinks(s: State, pid: U32, f: UnblockFaults)
    requires Sound(s)
    ensures Shrunk(s.chain, Unblock(s, pid, f).state.chain, s.nextHandle, pid)
  {
    if Targets(s, pid, f.listed).Some? {
      TargetsAreOwn(s, pid, f.listed);
      DeleteEachShrinks(s.chain, s.nextHandle, Targets(s, pid, f.listed).value, 0, f.deleted, pid);
    }
  }

  lemma UnblockKeepsSound(s: State, pid: U32, f: UnblockFaults)
    requires Sound(s)
    ensures Sound(Unblock(s, pid, f).state)
  {
    UnblockShrinks(s, pid, f);
  }

  lemma UnblockTouchesOnly(s: State, pid: U32, f: UnblockFaults)
    requires Sound(s)
    ensures OthersUntouched(s, Unblock(s, pid, f).state, pid)
  {
    UnblockShrinks(s, pid, f);
    var s' := Unblock(s, pid, f).state;
    forall q: U32 | q != pid ensures HandlesOf(s'.chain, q) == HandlesOf(s.chain, q) {
      OthersKeepHandles(s.chain, s'.chain, s.nextHandle, s.nextHandle, pid, q);
    }
  }

  lemma UnblockKeepsExact(s: State, pid: U32, f: UnblockFaults)
    requires Sound(s) && Exact(s)
    ensures Exact(Unblock(s, pid, f).state)
  {
    UnblockTouchesOnly(s, pid, f);
  }

  /** With nft in order, the handles of a process's live rules can all be deleted. */
  lemma OwnRulesDelete(chain: seq<Rule>, pid: U32, faults: nat -> Outcome)
    requires Distinct(chain) && forall k :: faults(k) == Done
    ensures DeleteEach(chain, HandlesOf(chain, pid), 0, faults).0
  {
    var targets := HandlesOf(chain, pid);
    HandlesDistinct(chain, pid);
    forall k | 0 <= k < |targets| ensures HasHandle(chain, targets[k]) {
      HandlesOfMember(chain, pid, targets[k]);
    }
    DeleteEachSucceeds(chain, targets, 0, faults);
  }

  /** An unblocking that fails leaves nothing behind that the next one cannot find: with nft in
      order, the second attempt always succeeds and clears the process. */
  lemma RetrySucceeds(s: State, pid: U32, first: UnblockFaults, second: UnblockFaults)
    requires Sound(s) && InOrder(second)
    ensures var retried := Unblock(Unblock(s, pid, first).state, pid, second);
            retried.ok && HandlesOf(retried.state.chain, pid) == []
  {
    var s' := Unblock(s, pid, first).state;
    UnblockKeepsSound(s, pid, first);
    FoundIsHandles(s'.chain, pid);
    OwnRulesDelete(s'.chain, pid, second.deleted);
    UnblockClears(s', pid, second);
  }

  // ---- Block ----

  /** A rule that is always found as itself, by the marker of one process alone. */
  ghost predicate OneRuleOf(body: string, pid: U32) {
    forall handle: U64, q: U32 :: FoundIn(body, handle, q) == if q == pid then [handle] else []
  }

  ghost predicate RulesOf(bodies: seq<string>, pid: U32) {
    forall b :: b in bodies ==> OneRuleOf(b, pid)
  }

  lemma SafeRule(body: string, pid: U32, name: string)
    requires Shows(body, pid, name) && NameOk(pid, name)
    ensures OneRuleOf(body, pid)
  {
    forall handle: U64, q: U32 ensures FoundIn(body, handle, q) == if q == pid then [handle] else [] {
      assert FoundIn(body, handle, q) == ShownAs(pid, name, handle, q);
    }
  }

  lemma BodiesAreOwn(pid: U32, name: string, tcp: seq<U16>, udp: seq<U16>, uid: Option<U32>)
    requires NameOk(pid, name)
    ensures BodiesFor(pid, name, tcp, udp, uid).Some? ==> RulesOf(BodiesFor(pid, name, tcp, udp, uid).value, pid)
  {
    var bodies := BodiesFor(pid, name, tcp, udp, uid);
    if bodies.Some? {
      BlockBodiesShow(tcp, udp, pid, name);
      if uid.Some? { UserBodyShows(uid.value, pid, name); }
      forall b | b in bodies.value ensures OneRuleOf(b, pid) { SafeRule(b, pid, name); }
    }
  }

  /** Added rules come last, are the process's, and have new handles. */
  ghost predicate Extended(before: seq<Rule>, after: seq<Rule>, next: nat, next': nat, pid: U32) {
    && WellFormed(after, next')
    && before <= after
    && (forall r :: r in after ==> r in before || (r.handle >= next && Listed(r, pid)))
    && Others(after, pid) == Others(before, pid)
  }

  lemma OneRuleListed(body: string, handle: U64, pid: U32)
    requires OneRuleOf(body, pid)
    ensures forall q: U32 :: Listed(Rule(handle, body), q) <==> q == pid
    ensures FoundIn(body, handle, pid) == [handle]
  {
    assert FoundIn(body, handle, pid) == [handle];
    forall q: U32 ensures Listed(Rule(handle, body), q) <==> q == pid {
      assert FoundIn(body, handle, q) == if q == pid then [handle] else [];
    }
  }

  lemma OneMoreWellFormed(chain: seq<Rule>, next: nat, r: Rule, pid: U32)
    requires WellFormed(chain, next) && r.handle == next
    requires (forall q: U32 :: Listed(r, q) <==> q == pid) && FoundIn(r.body, r.handle, pid) == [r.handle]
    ensures WellFormed(chain + [r], next + 1)
  {
    var more := chain + [r];
    assert forall s :: s in more <==> s in chain || s == r;
  }

  lemma AddOne(chain: seq<Rule>, next: U64, body: string, pid: U32)
    requires WellFormed(chain, next) && OneRuleOf(body, pid)
    ensures Listed(Rule(next, body), pid)
    ensures Extended(chain, chain + [Rule(next, body)], next, next + 1, pid)
  {
    OneRuleListed(body, next, pid);
    OneMoreWellFormed(chain, next, Rule(next, body), pid);
    assert (chain + [Rule(next, body)])[..|chain|] == chain;
    assert Others(chain, pid) + [] == Others(chain, pid);
  }

  lemma ExtendedTwice(a: seq<Rule>, b: seq<Rule>, c: seq<Rule>, m: nat, n: nat, k: nat, pid: U32)
    requires m <= n && Extended(a, b, m, n, pid) && Extended(b, c, n, k, pid)
    ensures Extended(a, c, m, k, pid)
  {
  }

  lemma {:induction false} AddedRules(chain: seq<Rule>, next: nat, bodies: seq<string>, pid: U32)
    requires next + |bodies| <= U64_MAX + 1 && WellFormed(chain, next) && RulesOf(bodies, pid)
    ensures Extended(chain, Added(chain, next, bodies), next, next + |bodies|, pid)
    decreases |bodies|
  {
    if |bodies| > 0 {
      var more := chain + [Rule(next, bodies[0])];
      AddOne(chain, next, bodies[0], pid);
      assert RulesOf(bodies[1..], pid);
      AddedRules(more, next + 1, bodies[1..], pid);
      ExtendedTwice(chain, more, Added(chain, next, bodies), next, next + 1, next + |bodies|, pid);
    }
  }

  lemma AddedKeepsCover(s: State, bodies: seq<string>, pid: U32, q: U32)
    requires Sound(s) && s.nextHandle + |bodies| <= U64_MAX + 1 && RulesOf(bodies, pid)
    requires q in s.tracked && q != pid
    ensures Covered(Added(s.chain, s.nextHandle, bodies), s.nextHandle + |bodies|, q, s.tracked[q])
  {
    var chain' := Added(s.chain, s.nextHandle, bodies);
    AddedRules(s.chain, s.nextHandle, bodies, pid);
    forall r | r in chain' && Listed(r, q) ensures r.handle in s.tracked[q] { assert r in s.chain; }
    forall r | r in chain' && r.handle in s.tracked[q] ensures Listed(r, q) { assert r in s.chain; }
  }

  lemma FoundCovers(chain: seq<Rule>, next: nat, pid: U32)
    requires WellFormed(chain, next) && |HandlesOf(chain, pid)| > 0
    ensures Covered(chain, next, pid, HandlesOf(chain, pid))
  {
    var handles := HandlesOf(chain, pid);
    forall r | r in chain && Listed(r, pid) ensures r.handle in handles { HandlesOfMember(chain, pid, r.handle); }
    forall h | h in handles ensures h < next { HandlesOfMember(chain, pid, h); }
    forall r | r in chain && r.handle in handles ensures Listed(r, pid) {
      HandlesOfMember(chain, pid, r.handle);
      var q :| q in chain && q.handle == r.handle && Listed(q, pid);
      SameRule(chain, next, q, r);
    }
  }

  lemma TrackFound(s: State, pid: U32)
    requires Sound(s)
    ensures Found(s.chain, pid) == HandlesOf(s.chain, pid)
    ensures |Found(s.chain, pid)| > 0 ==>
              Sound(State(s.chain, s.nextHandle, s.tracked[pid := Found(s.chain, pid)]))
  {
    FoundIsHandles(s.chain, pid);
    if |HandlesOf(s.chain, pid)| > 0 { FoundCovers(s.chain, s.nextHandle, pid); }
  }

  lemma AddedKeepsSound(s: State, bodies: seq<string>, pid: U32, s': State)
    requires Sound(s) && pid !in s.tracked && RulesOf(bodies, pid) && s.nextHandle + |bodies| <= U64_MAX + 1
    requires s' == State(Added(s.chain, s.nextHandle, bodies), s.nextHandle + |bodies|, s.tracked)
    ensures Sound(s')
  {
    AddedRules(s.chain, s.nextHandle, bodies, pid);
    AddedKeepsCovers(s, bodies, pid, s');
  }

  lemma AddedKeepsCovers(s: State, bodies: seq<string>, pid: U32, s': State)
    requires Sound(s) && pid !in s.tracked && RulesOf(bodies, pid) && s.nextHandle + |bodies| <= U64_MAX + 1
    requires s' == State(Added(s.chain, s.nextHandle, bodies), s.nextHandle + |bodies|, s.tracked)
    ensures forall q :: q in s'.tracked ==> Covered(s'.chain, s'.nextHandle, q, s'.tracked[q])
  {
    forall q | q in s.tracked ensures Covered(s'.chain, s'.nextHandle, q, s.tracked[q]) {
      AddedKeepsCover(s, bodies, pid, q);
    }
  }

  lemma InsertKeepsSound(s: State, pid: U32, bodies: seq<string>, added: Outcome, listed: bool)
    requires Sound(s) && pid !in s.tracked && RulesOf(bodies, pid)
    ensures Sound(Insert(s, pid, bodies, added, listed).state)
  {
    if !added.Rejected? && s.nextHandle + |bodies| <= U64_MAX + 1 {
      var s' := State(Added(s.chain, s.nextHandle, bodies), s.nextHandle + |bodies|, s.tracked);
      InsertEnds(s, s', pid, bodies, added, listed);
      AddedKeepsSound(s, bodies, pid, s');
      TrackFound(s', pid);
    }
  }

  /** What an insertion that is not refused ends in. */
  lemma InsertEnds(s: State, s': State, pid: U32, bodies: seq<string>, added: Outcome, listed: bool)
    requires !added.Rejected? && s.nextHandle + |bodies| <= U64_MAX + 1
    requires s' == State(Added(s.chain, s.nextHandle, bodies), s.nextHandle + |bodies|, s.tracked)
    ensures Insert(s, pid, bodies, added, listed).state
         == if added.Done? && listed && |Found(s'.chain, pid)| > 0
            then State(s'.chain, s'.nextHandle, s'.tracked[pid := Found(s'.chain, pid)]) else s'
  {
  }

  lemma InsertRemembersOnly(s: State, pid: U32, bodies: seq<string>, added: Outcome, listed: bool)
    requires pid !in s.tracked
    ensures Insert(s, pid, bodies, added, listed).state.tracked - {pid} == s.tracked - {pid}
  {
  }

  lemma InsertTouchesOnly(s: State, pid: U32, bodies: seq<string>, added: Outcome, listed: bool)
    requires Sound(s) && pid !in s.tracked && RulesOf(bodies, pid)
    ensures OthersUntouched(s, Insert(s, pid, bodies, added, listed).state, pid)
  {
    var s' := Insert(s, pid, bodies, added, listed).state;
    InsertKeepsSound(s, pid, bodies, added, listed);
    InsertKeepsOthers(s, pid, bodies, added, listed);
    InsertRemembersOnly(s, pid, bodies, added, listed);
    SameOthersSameHandles(s.chain, s'.chain, s.nextHandle, s'.nextHandle, pid);
  }

  lemma SameOthersSameHandles(before: seq<Rule>, after: seq<Rule>, next: nat, next': nat, pid: U32)
    requires WellFormed(before, next) && WellFormed(after, next') && Others(after, pid) == Others(before, pid)
    ensures forall q: U32 :: q != pid ==> HandlesOf(after, q) == HandlesOf(before, q)
  {
    forall q: U32 | q != pid ensures HandlesOf(after, q) == HandlesOf(before, q) {
      OthersKeepHandles(before, after, next, next', pid, q);
    }
  }

  lemma InsertKeepsOthers(s: State, pid: U32, bodies: seq<string>, added: Outcome, listed: bool)
    requires WellFormed(s.chain, s.nextHandle) && RulesOf(bodies, pid)
    ensures Others(Insert(s, pid, bodies, added, listed).state.chain, pid) == Others(s.chain, pid)
  {
    if !added.Rejected? && s.nextHandle + |bodies| <= U64_MAX + 1 {
      AddedRules(s.chain, s.nextHandle, bodies, pid);
    }
  }

  lemma BlockKeepsSound(s: State, pid: U32, name: string, tcp: seq<U16>, udp: seq<U16>, uid: Option<U32>,
                        f: BlockFaults)
    requires Sound(s) && NameOk(pid, name)
    ensures Sound(Block(s, pid, name, tcp, udp, uid, f).state)
    ensures OthersUntouched(s, Block(s, pid, name, tcp, udp, uid, f).state, pid)
  {
    UnblockKeepsSound(s, pid, f.unblock);
    UnblockTouchesOnly(s, pid, f.unblock);
    BodiesAreOwn(pid, name, tcp, udp, uid);
    var s' := Unblock(s, pid, f.unblock).state;
    var bodies := BodiesFor(pid, name, tcp, udp, uid);
    if bodies.Some? {
      InsertKeepsSound(s', pid, bodies.value, f.added, f.listed);
      InsertTouchesOnly(s', pid, bodies.value, f.added, f.listed);
    }
  }

  lemma InsertSucceeds(s: State, pid: U32, bodies: seq<string>, added: Outcome, listed: bool)
    requires WellFormed(s.chain, s.nextHandle) && RulesOf(bodies, pid) && |bodies| > 0
    ensures var step := Insert(s, pid, bodies, added, listed);
            && (step.ok <==> added == Done && listed && s.nextHandle + |bodies| <= U64_MAX + 1)
            && (step.ok ==> step.state.chain == Added(s.chain, s.nextHandle, bodies))
            && (step.ok ==> pid in step.state.tracked && step.state.tracked[pid] == HandlesOf(step.state.chain, pid))
  {
    if s.nextHandle + |bodies| <= U64_MAX + 1 {
      FirstAdded(s.chain, s.nextHandle, bodies, pid);
      AddedRules(s.chain, s.nextHandle, bodies, pid);
      FoundIsHandles(Added(s.chain, s.nextHandle, bodies), pid);
    }
  }

  /** Blocking reports success exactly when every step that matters did, and then the new rules
      stand at the end of the chain and every rule of the process is remembered. How the initial
      unblocking went does not matter. */
  lemma BlockSucceeds(s: State, pid: U32, name: string, tcp: seq<U16>, udp: seq<U16>, uid: Option<U32>, f: BlockFaults)
    requires Sound(s) && NameOk(pid, name)
    ensures var step := Block(s, pid, name, tcp, udp, uid, f);
            var s' := Unblock(s, pid, f.unblock).state;
            var count := if |tcp| > 0 && |udp| > 0 then 2 else 1;
            && (step.ok <==> f.portsRead && (|tcp| > 0 || |udp| > 0 || uid.Some?) && f.added == Done && f.listed
                             && s'.nextHandle + count <= U64_MAX + 1)
            && (step.ok ==> |step.state.chain| == |s'.chain| + count)
    ensures var step := Block(s, pid, name, tcp, udp, uid, f);
            var s' := Unblock(s, pid, f.unblock).state;
            var bodies := BodiesFor(pid, name, tcp, udp, uid);
            step.ok ==>
              && bodies.Some? && s'.nextHandle + |bodies.value| <= U64_MAX + 1
              && step.state.chain == Added(s'.chain, s'.nextHandle, bodies.value)
              && pid in step.state.tracked && step.state.tracked[pid] == HandlesOf(step.state.chain, pid)
  {
    UnblockKeepsSound(s, pid, f.unblock);
    BodiesAreOwn(pid, name, tcp, udp, uid);
    var s' := Unblock(s, pid, f.unblock).state;
    var bodies := BodiesFor(pid, name, tcp, udp, uid);
    if bodies.Some? {
      InsertSucceeds(s', pid, bodies.value, f.added, f.listed);
      if s'.nextHandle + |bodies.value| <= U64_MAX + 1 { AddedCount(s'.chain, s'.nextHandle, bodies.value); }
    }
  }

  lemma {:induction false} AddedCount(chain: seq<Rule>, next: nat, bodies: seq<string>)
    requires next + |bodies| <= U64_MAX + 1
    ensures |Added(chain, next, bodies)| == |chain| + |bodies|
    decreases |bodies|
  {
    if |bodies| > 0 { AddedCount(chain + [Rule(next, bodies[0])], next + 1, bodies[1..]); }
  }

  lemma FirstAdded(chain: seq<Rule>, next: nat, bodies: seq<string>, pid: U32)
    requires next + |bodies| <= U64_MAX + 1 && WellFormed(chain, next) && RulesOf(bodies, pid) && |bodies| > 0
    ensures |HandlesOf(Added(chain, next, bodies), pid)| > 0
  {
    var more := chain + [Rule(next, bodies[0])];
    assert bodies[0] in bodies;
    AddOne(chain, next, bodies[0], pid);
    AddedRules(more, next + 1, bodies[1..], pid);
    assert more[|chain|] in Added(chain, next, bodies);
    HandlesOfMember(Added(chain, next, bodies), pid, next);
  }

  ghost predicate RemembersRules(s: State, p: U32)
    requires p in s.tracked
  {
    s.tracked[p] == HandlesOf(s.chain, p) && |s.tracked[p]| > 0
  }

  lemma InsertRemembers(s: State, pid: U32, bodies: seq<string>, added: Outcome, listed: bool)
    requires WellFormed(s.chain, s.nextHandle) && pid !in s.tracked && RulesOf(bodies, pid)
    ensures var s' := Insert(s, pid, bodies, added, listed).state; pid in s'.tracked ==> RemembersRules(s', pid)
  {
    if !added.Rejected? && s.nextHandle + |bodies| <= U64_MAX + 1 {
      AddedRules(s.chain, s.nextHandle, bodies, pid);
      FoundIsHandles(Added(s.chain, s.nextHandle, bodies), pid);
    }
  }

  lemma BlockRemembers(s: State, pid: U32, name: string, tcp: seq<U16>, udp: seq<U16>, uid: Option<U32>, f: BlockFaults)
    requires Sound(s) && NameOk(pid, name)
    ensures var s' := Block(s, pid, name, tcp, udp, uid, f).state; pid in s'.tracked ==> RemembersRules(s', pid)
  {
    UnblockKeepsSound(s, pid, f.unblock);
    BodiesAreOwn(pid, name, tcp, udp, uid);
    var bodies := BodiesFor(pid, name, tcp, udp, uid);
    if bodies.Some? {
      InsertRemembers(Unblock(s, pid, f.unblock).state, pid, bodies.value, f.added, f.listed);
    }
  }

  lemma TouchKeepsExact(s: State, s': State, pid: U32)
    requires Exact(s) && OthersUntouched(s, s', pid) && (pid in s'.tracked ==> RemembersRules(s', pid))
    ensures Exact(s')
  {
    forall q | q in s'.tracked ensures s'.tracked[q] == HandlesOf(s'.chain, q) && |s'.tracked[q]| > 0 {
      if q != pid {
        assert q in s'.tracked - {pid};
        assert s'.tracked[q] == (s'.tracked - {pid})[q] == (s.tracked - {pid})[q] == s.tracked[q];
      }
    }
  }

  lemma BlockKeepsExact(s: State, pid: U32, name: string, tcp: seq<U16>, udp: seq<U16>, uid: Option<U32>,
                        f: BlockFaults)
    requires Sound(s) && Exact(s) && NameOk(pid, name)
    ensures Exact(Block(s, pid, name, tcp, udp, uid, f).state)
  {
    BlockKeepsSound(s, pid, name, tcp, udp, uid, f);
    BlockRemembers(s, pid, name, tcp, udp, uid, f);
    TouchKeepsExact(s, Block(s, pid, name, tcp, udp, uid, f).state, pid);
  }

  // ---- Runs ----

  datatype Op =
    | BlockOp(pid: U32, name: string, tcp: seq<U16>, udp: seq<U16>, uid: Option<U32>, blockFaults: BlockFaults)
    | UnblockOp(pid: U32, unblockFaults: UnblockFaults)
    | UnblockAllOp(flushed: Outcome)

  function Apply(s: State, op: Op): Step {
    match op
    case BlockOp(pid, name, tcp, udp, uid, f) => Block(s, pid, name, tcp, udp, uid, f)
    case UnblockOp(pid, f) => Unblock(s, pid, f)
    case UnblockAllOp(flushed) => UnblockAll(s, flushed)
  }

  function Run(s: State, ops: seq<Op>): State
    decreases |ops|
  {
    if |ops| == 0 then s else Apply(Run(s, ops[..|ops| - 1]), ops[|ops| - 1]).state
  }

  ghost predicate NamesOk(ops: seq<Op>) {
    forall op :: op in ops && op.BlockOp? ==> NameOk(op.pid, op.name)
  }

  /** On every run, whatever fails, every live rule of a tracked process is remembered. */
  lemma {:induction false} RunIsSound(s: State, ops: seq<Op>)
    requires Sound(s) && NamesOk(ops)
    ensures Sound(Run(s, ops))
    decreases |ops|
  {
    if |ops| > 0 {
      var prefix, op := ops[..|ops| - 1], ops[|ops| - 1];
      assert op in ops;
      RunIsSound(s, prefix);
      var before := Run(s, prefix);
      match op {
        case BlockOp(pid, name, tcp, udp, uid, f) => BlockKeepsSound(before, pid, name, tcp, udp, uid, f);
        case UnblockOp(pid, f) => UnblockKeepsSound(before, pid, f);
        case UnblockAllOp(flushed) =>
      }
    }
  }

  /** After every run, an unblocking that reports success has removed every rule of the process
      and nothing else, and with nft in order one retry is always enough. */
  lemma UnblockAfterAnyRun(s: State, ops: seq<Op>, pid: U32, f: UnblockFaults, retry: UnblockFaults)
    requires Sound(s) && NamesOk(ops) && InOrder(retry)
    ensures var before := Run(s, ops); var step := Unblock(before, pid, f);
            && OthersUntouched(before, step.state, pid)
            && (step.ok ==> HandlesOf(step.state.chain, pid) == [])
            && Unblock(step.state, pid, retry).ok
            && HandlesOf(Unblock(step.state, pid, retry).state.chain, pid) == []
  {
    RunIsSound(s, ops);
    var before := Run(s, ops);
    UnblockTouchesOnly(before, pid, f);
    if Unblock(before, pid, f).ok { UnblockClears(before, pid, f); }
    RetrySucceeds(before, pid, f, retry);
  }
}
