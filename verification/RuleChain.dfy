/** The chain of rules and the map of tracked handles, as values: what each operation of the
    controller does to them when any nft command may fail. */
module RuleChain {
  import opened Net
  import opened RuleText
  import opened RuleListing

  datatype Rule = Rule(handle: U64, body: string)

  /** What becomes of one nft command: it takes effect and says so; it is refused; or it takes
      effect and the report is lost. */
  datatype Outcome = Done | Rejected | Unreported

  /** The chain, the next handle nft will give, and the handles remembered per process. */
  datatype State = State(chain: seq<Rule>, nextHandle: nat, tracked: map<U32, seq<U64>>)

  datatype Step = Step(ok: bool, state: State)

  // ---- nft ----

  /** The listing shows the rule under the marker of a process: it is one of that process's. */
  predicate Listed(r: Rule, pid: U32) {
    FoundIn(r.body, r.handle, pid) != []
  }

  /** What searching the listing for a process's marker finds. */
  function Found(chain: seq<Rule>, pid: U32): seq<U64>
    decreases |chain|
  {
    if |chain| == 0 then []
    else
      var last := chain[|chain| - 1];
      Found(chain[..|chain| - 1], pid) + FoundIn(last.body, last.handle, pid)
  }

  /** The handles of a process's rules. */
  function HandlesOf(chain: seq<Rule>, pid: U32): seq<U64>
    decreases |chain|
  {
    if |chain| == 0 then []
    else
      var last := chain[|chain| - 1];
      HandlesOf(chain[..|chain| - 1], pid) + if Listed(last, pid) then [last.handle] else []
  }

  /** The rules that are not a process's, in order. */
  function Others(chain: seq<Rule>, pid: U32): seq<Rule>
    decreases |chain|
  {
    if |chain| == 0 then []
    else
      var last := chain[|chain| - 1];
      Others(chain[..|chain| - 1], pid) + if Listed(last, pid) then [] else [last]
  }

  function Without(chain: seq<Rule>, handle: U64): seq<Rule>
    decreases |chain|
  {
    if |chain| == 0 then []
    else
      var last := chain[|chain| - 1];
      Without(chain[..|chain| - 1], handle) + if last.handle == handle then [] else [last]
  }

  predicate HasHandle(chain: seq<Rule>, handle: U64) {
    exists r :: r in chain && r.handle == handle
  }

  /** Deleting a handle that is not in the chain is refused. */
  function Delete(chain: seq<Rule>, handle: U64, o: Outcome): (bool, seq<Rule>) {
    if !HasHandle(chain, handle) || o.Rejected? then (false, chain) else (o.Done?, Without(chain, handle))
  }

  /** Deletes handles in turn and stops at the first failure; `faults(n)` is what becomes of the
      `n`-th command. */
  function DeleteEach(chain: seq<Rule>, handles: seq<U64>, n: nat, faults: nat -> Outcome): (bool, seq<Rule>)
    requires n <= |handles|
    decreases |handles| - n
  {
    if n == |handles| then (true, chain)
    else
      var d := Delete(chain, handles[n], faults(n));
      if !d.0 then d else DeleteEach(d.1, handles, n + 1, faults)
  }

  /** New rules at the end of the chain, with handles never given before. */
  function Added(chain: seq<Rule>, next: nat, bodies: seq<string>): seq<Rule>
    requires next + |bodies| <= U64_MAX + 1
    decreases |bodies|
  {
    if |bodies| == 0 then chain else Added(chain + [Rule(next, bodies[0])], next + 1, bodies[1..])
  }

  // ---- The operations ----

  /** What becomes of the listing (does it succeed?) and of each deletion. */
  datatype UnblockFaults = UnblockFaults(listed: bool, deleted: nat -> Outcome)

  /** Whether the sockets of the process can be read, and what becomes of each nft command. */
  datatype BlockFaults = BlockFaults(unblock: UnblockFaults, portsRead: bool, added: Outcome, listed: bool)

  function Forget(s: State, pid: U32): State {
    State(s.chain, s.nextHandle, s.tracked - {pid})
  }

  /** The handles to delete, if they can be known. */
  function Targets(s: State, pid: U32, listed: bool): Option<seq<U64>> {
    if pid in s.tracked && |s.tracked[pid]| > 0 then Some(s.tracked[pid])
    else if listed then Some(Found(s.chain, pid))
    else None
  }

  function Unblock(s: State, pid: U32, f: UnblockFaults): Step {
    var targets := Targets(s, pid, f.listed);
    if targets.None? then Step(false, Forget(s, pid))
    else
      var d := DeleteEach(s.chain, targets.value, 0, f.deleted);
      Step(d.0, State(d.1, s.nextHandle, s.tracked - {pid}))
  }

  /** The rules to add: by port, or by user when the process has no ports. */
  function BodiesFor(pid: U32, name: string, tcp: seq<U16>, udp: seq<U16>, uid: Option<U32>): Option<seq<string>> {
    var comment := Comment(pid, name);
    if |tcp| == 0 && |udp| == 0 then
      if uid.None? then None else Some([UserBody(uid.value, comment)])
    else Some(BlockBodies(tcp, udp, comment))
  }

  /** Adds rules and, if all goes well, remembers every handle that is found by the marker. */
  function Insert(s: State, pid: U32, bodies: seq<string>, added: Outcome, listed: bool): Step {
    if added.Rejected? || s.nextHandle + |bodies| > U64_MAX + 1 then Step(false, s)
    else
      var s' := State(Added(s.chain, s.nextHandle, bodies), s.nextHandle + |bodies|, s.tracked);
      var handles := Found(s'.chain, pid);
      if !added.Done? || !listed || |handles| == 0 then Step(false, s')
      else Step(true, State(s'.chain, s'.nextHandle, s'.tracked[pid := handles]))
  }

  /** Blocking first unblocks, and ignores how that went. */
  function Block(s: State, pid: U32, name: string, tcp: seq<U16>, udp: seq<U16>, uid: Option<U32>, f: BlockFaults)
      : Step
  {
    var s' := Unblock(s, pid, f.unblock).state;
    var bodies := BodiesFor(pid, name, tcp, udp, uid);
    if !f.portsRead || bodies.None? then Step(false, s') else Insert(s', pid, bodies.value, f.added, f.listed)
  }

  function UnblockAll(s: State, flushed: Outcome): Step {
    match flushed
    case Rejected => Step(false, s)
    case Unreported => Step(false, State([], s.nextHandle, s.tracked))
    case Done => Step(true, State([], s.nextHandle, map[]))
  }

  // ---- Invariants ----

  ghost predicate Distinct(chain: seq<Rule>) {
    forall i, j :: 0 <= i < j < |chain| ==> chain[i].handle != chain[j].handle
  }

  /** A rule that is found by a marker is found as itself. */
  ghost predicate OwnHandles(chain: seq<Rule>) {
    forall r, p: U32 :: r in chain && Listed(r, p) ==> FoundIn(r.body, r.handle, p) == [r.handle]
  }

  /** Handles are distinct and already given; a rule is found as itself, and by one marker at most. */
  ghost predicate WellFormed(chain: seq<Rule>, next: nat) {
    && Distinct(chain)
    && (forall r :: r in chain ==> r.handle < next)
    && OwnHandles(chain)
    && (forall r, p: U32, q: U32 :: r in chain && Listed(r, p) && Listed(r, q) ==> p == q)
  }

  /** Every live rule of a tracked process is remembered, and nothing remembered is another's. */
  ghost predicate Covered(chain: seq<Rule>, next: nat, pid: U32, handles: seq<U64>) {
    && |handles| > 0
    && (forall r :: r in chain && Listed(r, pid) ==> r.handle in handles)
    && (forall h :: h in handles ==> h < next)
    && (forall r :: r in chain && r.handle in handles ==> Listed(r, pid))
  }

  ghost predicate Sound(s: State) {
    && WellFormed(s.chain, s.nextHandle)
    && forall p :: p in s.tracked ==> Covered(s.chain, s.nextHandle, p, s.tracked[p])
  }

  /** What is remembered of a process is exactly its live rules, in chain order. */
  ghost predicate Exact(s: State) {
    forall p :: p in s.tracked ==> s.tracked[p] == HandlesOf(s.chain, p) && |s.tracked[p]| > 0
  }

  // ---- Chains ----

  lemma FrontOrLast(chain: seq<Rule>)
    requires |chain| > 0
    ensures forall r :: r in chain <==> r in chain[..|chain| - 1] || r == chain[|chain| - 1]
  {
    assert chain == chain[..|chain| - 1] + [chain[|chain| - 1]];
  }

  lemma {:induction false} HandlesOfMember(chain: seq<Rule>, pid: U32, h: U64)
    ensures h in HandlesOf(chain, pid) <==> exists r :: r in chain && r.handle == h && Listed(r, pid)
    decreases |chain|
  {
    if |chain| > 0 {
      var front, last := chain[..|chain| - 1], chain[|chain| - 1];
      HandlesOfMember(front, pid, h);
      FrontOrLast(chain);
      if Listed(last, pid) && last.handle == h { assert last in chain; }
    }
  }

  /** If rules are found as themselves, the search finds exactly a process's rules. */
  lemma {:induction false} FoundIsHandles(chain: seq<Rule>, pid: U32)
    requires OwnHandles(chain)
    ensures Found(chain, pid) == HandlesOf(chain, pid)
    decreases |chain|
  {
    if |chain| > 0 {
      var front, last := chain[..|chain| - 1], chain[|chain| - 1];
      assert last in chain;
      FoundIsHandles(front, pid);
    }
  }

  lemma {:induction false} WithoutMember(chain: seq<Rule>, h: U64)
    ensures forall r :: r in Without(chain, h) <==> r in chain && r.handle != h
    decreases |chain|
  {
    if |chain| > 0 {
      var front, last := chain[..|chain| - 1], chain[|chain| - 1];
      WithoutMember(front, h);
      assert chain == front + [last];
      assert forall r :: r in chain <==> r in front || r == last;
    }
  }

  /** Removing one of a process's rules shows nowhere else. */
  lemma {:induction false} WithoutOthers(chain: seq<Rule>, h: U64, pid: U32)
    requires forall r :: r in chain && r.handle == h ==> Listed(r, pid)
    ensures Others(Without(chain, h), pid) == Others(chain, pid)
    decreases |chain|
  {
    if |chain| > 0 {
      var front, last := chain[..|chain| - 1], chain[|chain| - 1];
      assert last in chain;
      WithoutOthers(front, h, pid);
      var kept := Without(front, h);
      assert (kept + [last])[..|kept|] == kept;
      assert kept + [] == kept;
    }
  }

  /** Other processes' handles are among the other rules. */
  lemma {:induction false} HandlesOfOthers(chain: seq<Rule>, pid: U32, q: U32)
    requires forall r :: r in chain && Listed(r, pid) ==> !Listed(r, q)
    ensures HandlesOf(chain, q) == HandlesOf(Others(chain, pid), q)
    decreases |chain|
  {
    if |chain| > 0 {
      var front, last := chain[..|chain| - 1], chain[|chain| - 1];
      assert last in chain;
      HandlesOfOthers(front, pid, q);
      var kept := Others(front, pid);
      assert (kept + [last])[..|kept|] == kept;
      assert kept + [] == kept;
    }
  }

  lemma {:induction false} OthersMember(chain: seq<Rule>, pid: U32)
    ensures forall r :: r in Others(chain, pid) <==> r in chain && !Listed(r, pid)
    decreases |chain|
  {
    if |chain| > 0 {
      var front, last := chain[..|chain| - 1], chain[|chain| - 1];
      OthersMember(front, pid);
      assert chain == front + [last];
      assert forall r :: r in chain <==> r in front || r == last;
    }
  }

  lemma {:induction false} WithoutDistinct(chain: seq<Rule>, h: U64)
    requires Distinct(chain)
    ensures Distinct(Without(chain, h))
    decreases |chain|
  {
    if |chain| > 0 {
      var front, last := chain[..|chain| - 1], chain[|chain| - 1];
      WithoutDistinct(front, h);
      WithoutMember(front, h);
      var kept := Without(front, h);
      forall i | 0 <= i < |kept| ensures kept[i].handle != last.handle {
        assert kept[i] in front;
        var k :| 0 <= k < |front| && front[k] == kept[i];
        assert chain[k].handle != chain[|chain| - 1].handle;
      }
      assert kept + [] == kept;
    }
  }

  // ---- Unblocking ----

  /** What deleting some of one process's handles leaves: the same other rules, fewer of its own. */
  ghost predicate Shrunk(before: seq<Rule>, after: seq<Rule>, next: nat, pid: U32) {
    && WellFormed(after, next)
    && (forall r :: r in after ==> r in before)
    && Others(after, pid) == Others(before, pid)
  }

  lemma WithoutShrinks(chain: seq<Rule>, next: nat, h: U64, pid: U32)
    requires WellFormed(chain, next)
    requires forall r :: r in chain && r.handle == h ==> Listed(r, pid)
    ensures Shrunk(chain, Without(chain, h), next, pid)
  {
    WithoutMember(chain, h);
    WithoutDistinct(chain, h);
    WithoutOthers(chain, h, pid);
  }

  lemma ShrunkTwice(a: seq<Rule>, b: seq<Rule>, c: seq<Rule>, next: nat, pid: U32)
    requires Shrunk(a, b, next, pid) && Shrunk(b, c, next, pid)
    ensures Shrunk(a, c, next, pid)
  {
  }

  ghost predicate OnlyOf(chain: seq<Rule>, handles: seq<U64>, pid: U32) {
    forall r :: r in chain && r.handle in handles ==> Listed(r, pid)
  }

  lemma DeleteShrinks(chain: seq<Rule>, next: nat, h: U64, o: Outcome, pid: U32)
    requires WellFormed(chain, next)
    requires forall r :: r in chain && r.handle == h ==> Listed(r, pid)
    ensures Shrunk(chain, Delete(chain, h, o).1, next, pid)
    ensures Delete(chain, h, o).0 ==> !HasHandle(Delete(chain, h, o).1, h)
  {
    WithoutShrinks(chain, next, h, pid);
    WithoutMember(chain, h);
  }

  lemma {:induction false} DeleteEachShrinks(chain: seq<Rule>, next: nat, handles: seq<U64>, n: nat,
                                             faults: nat -> Outcome, pid: U32)
    requires WellFormed(chain, next) && n <= |handles| && OnlyOf(chain, handles, pid)
    ensures Shrunk(chain, DeleteEach(chain, handles, n, faults).1, next, pid)
    decreases |handles| - n
  {
    if n < |handles| {
      assert handles[n] in handles;
      DeleteShrinks(chain, next, handles[n], faults(n), pid);
      var d := Delete(chain, handles[n], faults(n));
      if d.0 {
        DeleteEachShrinks(d.1, next, handles, n + 1, faults, pid);
        ShrunkTwice(chain, d.1, DeleteEach(d.1, handles, n + 1, faults).1, next, pid);
      }
    }
  }

  lemma {:induction false} DeleteEachSubset(chain: seq<Rule>, handles: seq<U64>, n: nat, faults: nat -> Outcome)
    requires n <= |handles|
    ensures forall r :: r in DeleteEach(chain, handles, n, faults).1 ==> r in chain
    decreases |handles| - n
  {
    if n < |handles| {
      WithoutMember(chain, handles[n]);
      var d := Delete(chain, handles[n], faults(n));
      if d.0 { DeleteEachSubset(d.1, handles, n + 1, faults); }
    }
  }

  /** When every deletion succeeded, none of the handles is left. */
  lemma {:induction false} DeleteEachRemoves(chain: seq<Rule>, handles: seq<U64>, n: nat, faults: nat -> Outcome,
                                             k: nat)
    requires n <= k < |handles| && DeleteEach(chain, handles, n, faults).0
    ensures !HasHandle(DeleteEach(chain, handles, n, faults).1, handles[k])
    decreases |handles| - n
  {
    WithoutMember(chain, handles[n]);
    var d := Delete(chain, handles[n], faults(n));
    if k == n {
      DeleteEachSubset(d.1, handles, n + 1, faults);
    } else {
      DeleteEachRemoves(d.1, handles, n + 1, faults, k);
    }
  }

  /** The first deletion that fails is the last: those before it are done, those after it are not
      tried. */
  lemma {:induction false} DeleteEachStops(chain: seq<Rule>, handles: seq<U64>, n: nat, faults: nat -> Outcome, k: nat)
    requires n <= k < |handles| && forall i, j :: n <= i < j < |handles| ==> handles[i] != handles[j]
    requires forall i :: n <= i < |handles| ==> HasHandle(chain, handles[i])
    requires faults(k) != Done && forall i :: n <= i < k ==> faults(i) == Done
    ensures var d := DeleteEach(chain, handles, n, faults);
            && !d.0
            && forall r :: r in d.1 <==>
                 r in chain && r.handle !in handles[n..k] && (r.handle == handles[k] ==> faults(k).Rejected?)
    decreases k - n
  {
    WithoutMember(chain, handles[n]);
    if n < k {
      var rest := Without(chain, handles[n]);
      forall i | n + 1 <= i < |handles| ensures HasHandle(rest, handles[i]) {
        var r :| r in chain && r.handle == handles[i];
        assert r in rest;
      }
      DeleteEachStops(rest, handles, n + 1, faults, k);
      assert handles[n..k] == [handles[n]] + handles[n + 1..k];
    }
  }

  /** Without faults, deleting distinct live handles succeeds. */
  lemma {:induction false} DeleteEachSucceeds(chain: seq<Rule>, handles: seq<U64>, n: nat, faults: nat -> Outcome)
    requires n <= |handles| && forall k :: faults(k) == Done
    requires forall i, j :: n <= i < j < |handles| ==> handles[i] != handles[j]
    requires forall k :: n <= k < |handles| ==> HasHandle(chain, handles[k])
    ensures DeleteEach(chain, handles, n, faults).0
    decreases |handles| - n
  {
    if n < |handles| {
      var rest := Without(chain, handles[n]);
      WithoutMember(chain, handles[n]);
      forall k | n + 1 <= k < |handles| ensures HasHandle(rest, handles[k]) {
        var r :| r in chain && r.handle == handles[k];
        assert r in rest;
      }
      DeleteEachSucceeds(rest, handles, n + 1, faults);
    }
  }

  lemma {:induction false} HandlesDistinct(chain: seq<Rule>, pid: U32)
    requires Distinct(chain)
    ensures var hs := HandlesOf(chain, pid); forall i, j :: 0 <= i < j < |hs| ==> hs[i] != hs[j]
    decreases |chain|
  {
    if |chain| > 0 {
      var front, last := chain[..|chain| - 1], chain[|chain| - 1];
      HandlesDistinct(front, pid);
      var hs := HandlesOf(front, pid);
      forall i | 0 <= i < |hs| ensures hs[i] != last.handle {
        HandlesOfMember(front, pid, hs[i]);
        var r :| r in front && r.handle == hs[i];
        var k :| 0 <= k < |front| && front[k] == r;
        assert chain[k].handle != chain[|chain| - 1].handle;
      }
      assert hs + [] == hs;
    }
  }

  lemma NoHandlesNoRules(chain: seq<Rule>, pid: U32)
    requires forall r :: r in chain ==> !Listed(r, pid)
    ensures HandlesOf(chain, pid) == []
  {
    if |HandlesOf(chain, pid)| > 0 { HandlesOfMember(chain, pid, HandlesOf(chain, pid)[0]); }
    assert |HandlesOf(chain, pid)| == 0;
  }

  /** The targets of an unblocking are the process's own, and all of them. */
  lemma TargetsAreOwn(s: State, pid: U32, listed: bool)
    requires Sound(s) && Targets(s, pid, listed).Some?
    ensures OnlyOf(s.chain, Targets(s, pid, listed).value, pid)
    ensures forall r :: r in s.chain && Listed(r, pid) ==> r.handle in Targets(s, pid, listed).value
  {
    var targets := Targets(s, pid, listed).value;
    FoundIsHandles(s.chain, pid);
    if !(pid in s.tracked && |s.tracked[pid]| > 0) {
      forall r | r in s.chain && r.handle in targets ensures Listed(r, pid) {
        HandlesOfMember(s.chain, pid, r.handle);
        var q :| q in s.chain && q.handle == r.handle && Listed(q, pid);
        SameRule(s.chain, s.nextHandle, q, r);
      }
      forall r | r in s.chain && Listed(r, pid) ensures r.handle in targets {
        HandlesOfMember(s.chain, pid, r.handle);
      }
    }
  }

  lemma SameRule(chain: seq<Rule>, next: nat, a: Rule, b: Rule)
    requires WellFormed(chain, next) && a in chain && b in chain && a.handle == b.handle
    ensures a == b
  {
    var i :| 0 <= i < |chain| && chain[i] == a;
    var j :| 0 <= j < |chain| && chain[j] == b;
    assert i == j;
  }

  /** An unblocking that reports success has left no rule of the process. */
  lemma UnblockClears(s: State, pid: U32, f: UnblockFaults)
    requires Sound(s) && Unblock(s, pid, f).ok
    ensures HandlesOf(Unblock(s, pid, f).state.chain, pid) == []
  {
    var targets := Targets(s, pid, f.listed).value;
    TargetsAreOwn(s, pid, f.listed);
    DeleteEachShrinks(s.chain, s.nextHandle, targets, 0, f.deleted, pid);
    var after := DeleteEach(s.chain, targets, 0, f.deleted).1;
    forall r | r in after ensures r.handle !in targets {
      forall k | 0 <= k < |targets| ensures targets[k] != r.handle {
        DeleteEachRemoves(s.chain, targets, 0, f.deleted, k);
      }
    }
    NoHandlesNoRules(after, pid);
  }
}
