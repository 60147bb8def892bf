/** What becomes of the rules in the chain that are not ours. */
module RuleForeign {
  import opened Net
  import opened RuleListing
  import opened RuleChain
  import opened RuleRuns

  /** A rule that the listing shows under nobody's marker. */
  ghost predicate Foreign(r: Rule) {
    forall q: U32 :: !Listed(r, q)
  }

  /** The foreign rules of a chain, in order. */
  ghost function ForeignIn(chain: seq<Rule>): seq<Rule>
    decreases |chain|
  {
    if |chain| == 0 then []
    else
      var last := chain[|chain| - 1];
      ForeignIn(chain[..|chain| - 1]) + if Foreign(last) then [last] else []
  }

  /** Handles are distinct and already given, rules are found as themselves, and no handle that is
      remembered is a foreign rule's. */
  ghost predicate Apart(s: State) {
    && Numbered(s.chain, s.nextHandle)
    && (forall p :: p in s.tracked ==> NoneForeign(s.chain, s.tracked[p]) && Given(s.tracked[p], s.nextHandle))
  }

  ghost predicate Numbered(chain: seq<Rule>, next: nat) {
    Distinct(chain) && OwnHandles(chain) && forall r :: r in chain ==> r.handle < next
  }

  ghost predicate NoneForeign(chain: seq<Rule>, handles: seq<U64>) {
    forall r :: r in chain && r.handle in handles ==> !Foreign(r)
  }

  ghost predicate Given(handles: seq<U64>, next: nat) {
    forall h :: h in handles ==> h < next
  }

  // ---- Unblock ----

  lemma {:induction false} WithoutKeepsForeign(chain: seq<Rule>, h: U64)
    requires forall r :: r in chain && r.handle == h ==> !Foreign(r)
    ensures ForeignIn(Without(chain, h)) == ForeignIn(chain)
    decreases |chain|
  {
    if |chain| > 0 {
      var front, last := chain[..|chain| - 1], chain[|chain| - 1];
      assert last in chain;
      WithoutKeepsForeign(front, h);
      var kept := Without(front, h);
      assert (kept + [last])[..|kept|] == kept;
      assert kept + [] == kept;
    }
  }

  /** Fewer rules with distinct handles, and the same foreign ones. */
  ghost predicate Thinned(before: seq<Rule>, after: seq<Rule>) {
    && ForeignIn(after) == ForeignIn(before)
    && (Distinct(before) ==> Distinct(after))
    && forall r :: r in after ==> r in before
  }

  lemma DeleteThins(chain: seq<Rule>, h: U64, o: Outcome)
    requires forall r :: r in chain && r.handle == h ==> !Foreign(r)
    ensures Thinned(chain, Delete(chain, h, o).1)
  {
    WithoutMember(chain, h);
    if Distinct(chain) { WithoutDistinct(chain, h); }
    WithoutKeepsForeign(chain, h);
  }

  lemma ThinnedTwice(a: seq<Rule>, b: seq<Rule>, c: seq<Rule>)
    requires Thinned(a, b) && Thinned(b, c)
    ensures Thinned(a, c)
  {
  }

  lemma StillNoneForeign(a: seq<Rule>, b: seq<Rule>, handles: seq<U64>)
    requires Thinned(a, b) && NoneForeign(a, handles)
    ensures NoneForeign(b, handles)
  {
  }

  lemma NoneForeignHere(chain: seq<Rule>, handles: seq<U64>, n: nat)
    requires NoneForeign(chain, handles) && n < |handles|
    ensures forall r :: r in chain && r.handle == handles[n] ==> !Foreign(r)
  {
    assert handles[n] in handles;
  }

  lemma {:induction false} DeleteEachThins(chain: seq<Rule>, handles: seq<U64>, n: nat, faults: nat -> Outcome)
    requires n <= |handles| && NoneForeign(chain, handles)
    ensures Thinned(chain, DeleteEach(chain, handles, n, faults).1)
    decreases |handles| - n
  {
    if n < |handles| {
      NoneForeignHere(chain, handles, n);
      DeleteThins(chain, handles[n], faults(n));
      var d := Delete(chain, handles[n], faults(n));
      if d.0 {
        StillNoneForeign(chain, d.1, handles);
        DeleteEachThins(d.1, handles, n + 1, faults);
        ThinnedTwice(chain, d.1, DeleteEach(d.1, handles, n + 1, faults).1);
      }
    }
  }

  lemma FoundNotForeign(chain: seq<Rule>, next: nat, pid: U32)
    requires Numbered(chain, next)
    ensures NoneForeign(chain, Found(chain, pid)) && Given(Found(chain, pid), next)
  {
    FoundIsHandles(chain, pid);
    forall h | h in HandlesOf(chain, pid)
      ensures h < next && forall r :: r in chain && r.handle == h ==> !Foreign(r)
    {
      HandlesOfMember(chain, pid, h);
      var q :| q in chain && q.handle == h && Listed(q, pid);
      forall r | r in chain && r.handle == h ensures r == q {
        var i :| 0 <= i < |chain| && chain[i] == r;
        var j :| 0 <= j < |chain| && chain[j] == q;
      }
    }
  }

  lemma UnblockKeepsForeign(s: State, pid: U32, f: UnblockFaults)
    requires Apart(s)
    ensures Apart(Unblock(s, pid, f).state)
    ensures ForeignIn(Unblock(s, pid, f).state.chain) == ForeignIn(s.chain)
  {
    FoundNotForeign(s.chain, s.nextHandle, pid);
    var targets := Targets(s, pid, f.listed);
    if targets.Some? { DeleteEachThins(s.chain, targets.value, 0, f.deleted); }
  }

  // ---- Block ----

  /** A rule of a process that is never found but as itself, by whatever marker. */
  ghost predicate OwnRule(body: string, pid: U32) {
    && (forall handle: U64, q: U32 :: FoundIn(body, handle, q) != [] ==> FoundIn(body, handle, q) == [handle])
    && (forall handle: U64 :: FoundIn(body, handle, pid) == [handle])
  }

  ghost predicate AllOwn(bodies: seq<string>, pid: U32) {
    forall b :: b in bodies ==> OwnRule(b, pid)
  }

  lemma LegibleRule(body: string, pid: U32, name: string)
    requires Shows(body, pid, name) && Legible(pid, name)
    ensures OwnRule(body, pid)
  {
    forall handle: U64, q: U32
      ensures FoundIn(body, handle, q) != [] ==> FoundIn(body, handle, q) == [handle]
      ensures FoundIn(body, handle, pid) == [handle]
    {
      assert FoundIn(body, handle, q) == ShownAs(pid, name, handle, q);
      assert FoundIn(body, handle, pid) == ShownAs(pid, name, handle, pid);
    }
  }

  lemma BodiesAreLegible(pid: U32, name: string, tcp: seq<U16>, udp: seq<U16>, uid: Option<U32>)
    requires Legible(pid, name)
    ensures var bodies := BodiesFor(pid, name, tcp, udp, uid); bodies.Some? ==> AllOwn(bodies.value, pid)
  {
    var bodies := BodiesFor(pid, name, tcp, udp, uid);
    if bodies.Some? {
      BlockBodiesShow(tcp, udp, pid, name);
      if uid.Some? { UserBodyShows(uid.value, pid, name); }
      forall b | b in bodies.value ensures OwnRule(b, pid) { LegibleRule(b, pid, name); }
    }
  }

  lemma AddOneForeign(chain: seq<Rule>, next: U64, body: string, pid: U32)
    requires Numbered(chain, next) && OwnRule(body, pid)
    ensures Numbered(chain + [Rule(next, body)], next + 1)
    ensures ForeignIn(chain + [Rule(next, body)]) == ForeignIn(chain)
  {
    assert Listed(Rule(next, body), pid);
    assert (chain + [Rule(next, body)])[..|chain|] == chain;
    assert ForeignIn(chain) + [] == ForeignIn(chain);
  }

  ghost predicate Extended(before: seq<Rule>, after: seq<Rule>, next: nat) {
    ForeignIn(after) == ForeignIn(before) && forall r :: r in after ==> r in before || r.handle >= next
  }

  lemma {:induction false} AddedExtends(chain: seq<Rule>, next: nat, bodies: seq<string>, pid: U32)
    requires next + |bodies| <= U64_MAX + 1 && Numbered(chain, next) && AllOwn(bodies, pid)
    ensures Numbered(Added(chain, next, bodies), next + |bodies|)
    ensures Extended(chain, Added(chain, next, bodies), next)
    decreases |bodies|
  {
    if |bodies| > 0 {
      assert bodies[0] in bodies;
      var more := chain + [Rule(next, bodies[0])];
      AddOneForeign(chain, next, bodies[0], pid);
      AddedExtends(more, next + 1, bodies[1..], pid);
      assert forall r :: r in more ==> r in chain || r.handle == next;
    }
  }

  lemma InsertKeepsForeign(s: State, pid: U32, bodies: seq<string>, added: Outcome, listed: bool)
    requires Apart(s) && AllOwn(bodies, pid)
    ensures Apart(Insert(s, pid, bodies, added, listed).state)
    ensures ForeignIn(Insert(s, pid, bodies, added, listed).state.chain) == ForeignIn(s.chain)
  {
    if !added.Rejected? && s.nextHandle + |bodies| <= U64_MAX + 1 {
      var after, next := Added(s.chain, s.nextHandle, bodies), s.nextHandle + |bodies|;
      AddedExtends(s.chain, s.nextHandle, bodies, pid);
      FoundNotForeign(after, next, pid);
      forall p | p in s.tracked ensures NoneForeign(after, s.tracked[p]) && Given(s.tracked[p], next) {
        assert NoneForeign(s.chain, s.tracked[p]);
      }
    }
  }

  lemma BlockKeepsForeign(s: State, pid: U32, name: string, tcp: seq<U16>, udp: seq<U16>, uid: Option<U32>,
                          f: BlockFaults)
    requires Apart(s) && Legible(pid, name)
    ensures Apart(Block(s, pid, name, tcp, udp, uid, f).state)
    ensures ForeignIn(Block(s, pid, name, tcp, udp, uid, f).state.chain) == ForeignIn(s.chain)
  {
    UnblockKeepsForeign(s, pid, f.unblock);
    BodiesAreLegible(pid, name, tcp, udp, uid);
    var bodies := BodiesFor(pid, name, tcp, udp, uid);
    if bodies.Some? {
      InsertKeepsForeign(Unblock(s, pid, f.unblock).state, pid, bodies.value, f.added, f.listed);
    }
  }

  // ---- Runs ----

  ghost predicate SomeFlushed(ops: seq<Op>) {
    exists op :: op in ops && Flushes(op)
  }

  ghost predicate Flushes(op: Op) {
    op.UnblockAllOp? && !op.flushed.Rejected?
  }

  lemma ApplyKeepsForeign(s: State, op: Op)
    requires Apart(s) && (op.BlockOp? ==> Legible(op.pid, op.name))
    ensures Apart(Apply(s, op).state)
    ensures ForeignIn(Apply(s, op).state.chain) == if Flushes(op) then [] else ForeignIn(s.chain)
  {
    match op {
      case BlockOp(pid, name, tcp, udp, uid, f) => BlockKeepsForeign(s, pid, name, tcp, udp, uid, f);
      case UnblockOp(pid, f) => UnblockKeepsForeign(s, pid, f);
      case UnblockAllOp(flushed) =>
    }
  }

  /** No name makes a rule that is found as another, or not at all; a single line never does. */
  ghost predicate NamesLegible(ops: seq<Op>) {
    forall op :: op in ops && op.BlockOp? ==> Legible(op.pid, op.name)
  }

  ghost predicate ForeignKept(s: State, after: State, flushed: bool) {
    Apart(after) && ForeignIn(after.chain) == if flushed then [] else ForeignIn(s.chain)
  }

  lemma NextKeepsForeign(s: State, before: State, op: Op, flushed: bool)
    requires ForeignKept(s, before, flushed) && (op.BlockOp? ==> Legible(op.pid, op.name))
    ensures ForeignKept(s, Apply(before, op).state, flushed || Flushes(op))
  {
    ApplyKeepsForeign(before, op);
  }

  lemma {:induction false} ForeignAfterRun(s: State, ops: seq<Op>)
    requires Apart(s) && NamesLegible(ops)
    ensures ForeignKept(s, Run(s, ops), SomeFlushed(ops))
    decreases |ops|
  {
    if |ops| > 0 {
      var prefix, op := ops[..|ops| - 1], ops[|ops| - 1];
      assert op in ops;
      assert ops == prefix + [op];
      ForeignAfterRun(s, prefix);
      NextKeepsForeign(s, Run(s, prefix), op, SomeFlushed(prefix));
      FlushedLast(prefix, op);
    }
  }

  lemma FlushedLast(prefix: seq<Op>, op: Op)
    ensures SomeFlushed(prefix + [op]) <==> SomeFlushed(prefix) || Flushes(op)
  {
    var ops := prefix + [op];
    assert forall o :: o in ops <==> o in prefix || o == op;
  }

  /** On every run of legible names, whatever fails, the rules that are not ours stay as they were,
      in order, exactly unless a flush took effect while there were any. */
  lemma ForeignRulesSurvive(s: State, ops: seq<Op>)
    requires Apart(s) && NamesLegible(ops)
    ensures ForeignIn(Run(s, ops).chain) == ForeignIn(s.chain) <==> !SomeFlushed(ops) || ForeignIn(s.chain) == []
  {
    ForeignAfterRun(s, ops);
  }
}
