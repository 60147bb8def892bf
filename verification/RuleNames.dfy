/** Which process names are safe to block, and what happens under the others. */
module RuleNames {
  import opened Net
  import opened Text
  import opened RuleText
  import opened RuleListing
  import opened RuleChain
  import opened RuleRuns
  import opened RuleStale

  // ---- One rule in the chain ----

  /** An empty chain, nothing remembered, and the next handle to be given. */
  function Start(handle: U64): State {
    State([], handle, map[])
  }

  function RuleFor(p: U32, name: string, uid: U32, handle: U64): Rule {
    Rule(handle, UserBody(uid, Comment(p, name)))
  }

  lemma FoundAlone(r: Rule, q: U32)
    ensures Found([r], q) == FoundIn(r.body, r.handle, q)
  {
    assert [r][..0] == [] && Found([], q) == [];
  }

  lemma WithoutAlone(r: Rule)
    ensures Without([r], r.handle) == [] && HasHandle([r], r.handle)
  {
    assert [r][..0] == [] && Without([], r.handle) == [] && r in [r];
  }

  lemma FoundFor(p: U32, name: string, uid: U32, handle: U64, q: U32)
    ensures Found([RuleFor(p, name, uid, handle)], q) == ShownAs(p, name, handle, q)
  {
    FoundAlone(RuleFor(p, name, uid, handle), q);
    UserBodyShows(uid, p, name);
    assert FoundIn(UserBody(uid, Comment(p, name)), handle, q) == ShownAs(p, name, handle, q);
  }

  lemma UnblockStart(handle: U64, q: U32, u: UnblockFaults)
    ensures Unblock(Start(handle), q, u).state == Start(handle)
  {
    assert Found([], q) == [] && Start(handle).tracked - {q} == Start(handle).tracked;
  }

  /** The state once the rule is in the chain. */
  function WithRule(p: U32, name: string, uid: U32, handle: U64, remembered: bool): State {
    State([RuleFor(p, name, uid, handle)], handle + 1,
          if remembered then map[p := ShownAs(p, name, handle, p)] else map[])
  }

  lemma AddedFirst(body: string, handle: U64)
    ensures Added([], handle, [body]) == [Rule(handle, body)]
  {
    assert [body][1..] == [] && [] + [Rule(handle, body)] == [Rule(handle, body)];
    assert Added([], handle, [body]) == Added([Rule(handle, body)], handle + 1, []);
  }

  lemma InsertFirst(p: U32, body: string, handle: U64, added: Outcome, listed: bool, found: seq<U64>)
    requires found == Found([Rule(handle, body)], p)
    ensures var ok := added.Done? && listed && |found| > 0;
            Insert(Start(handle), p, [body], added, listed)
            == if added.Rejected? then Step(false, Start(handle))
               else Step(ok, State([Rule(handle, body)], handle + 1, if ok then map[p := found] else map[]))
  {
    AddedFirst(body, handle);
  }

  /** However blocking goes, the rule is in the chain or not, and its handles are remembered or not. */
  lemma BlockEnds(p: U32, name: string, uid: U32, handle: U64, f: BlockFaults)
    ensures var step := Block(Start(handle), p, name, [], [], Some(uid), f);
            var found := ShownAs(p, name, handle, p);
            if !f.portsRead || f.added.Rejected? then step == Step(false, Start(handle))
            else
              var ok := f.added.Done? && f.listed && |found| > 0;
              step == Step(ok, WithRule(p, name, uid, handle, ok))
  {
    UnblockStart(handle, p, f.unblock);
    FoundFor(p, name, uid, handle, p);
    InsertFirst(p, UserBody(uid, Comment(p, name)), handle, f.added, f.listed, ShownAs(p, name, handle, p));
  }

  // ---- Safe names ----

  /** The handles of all rules. */
  function AllHandles(chain: seq<Rule>): seq<U64> {
    seq(|chain|, i requires 0 <= i < |chain| => chain[i].handle)
  }

  /** After blocking under the name, what is remembered is the rule there is; unblocking the process
      leaves no rule if it reports success, and unblocking any other leaves the rule. */
  ghost predicate SafeBeside(p: U32, name: string, q: U32, uid: U32, handle: U64, f: BlockFaults, u: UnblockFaults) {
    var blocked := Block(Start(handle), p, name, [], [], Some(uid), f).state;
    var step := Unblock(blocked, q, u);
    && (p in blocked.tracked ==> blocked.tracked[p] == AllHandles(blocked.chain))
    && if q == p then step.ok ==> step.state.chain == [] else step.state.chain == blocked.chain
  }

  /** From every empty chain, with all faults. */
  ghost predicate SafeToBlock(p: U32, name: string) {
    forall q: U32, uid: U32, handle: U64, f: BlockFaults, u: UnblockFaults ::
      SafeBeside(p, name, q, uid, handle, f, u)
  }

  lemma OkShown(p: U32, name: string, handle: U64, q: U32)
    requires NameOk(p, name)
    ensures ShownAs(p, name, handle, q) == if q == p then [handle] else []
  {
  }

  lemma OneDeleted(r: Rule, faults: nat -> Outcome)
    ensures var d := DeleteEach([r], [r.handle], 0, faults); d.0 ==> d.1 == []
  {
    WithoutAlone(r);
  }

  lemma OkIsSafe(p: U32, name: string, q: U32, uid: U32, handle: U64, f: BlockFaults, u: UnblockFaults)
    requires NameOk(p, name)
    ensures SafeBeside(p, name, q, uid, handle, f, u)
  {
    BlockEnds(p, name, uid, handle, f);
    UnblockStart(handle, q, u);
    OkShown(p, name, handle, p);
    OkShown(p, name, handle, q);
    FoundFor(p, name, uid, handle, q);
    OneDeleted(RuleFor(p, name, uid, handle), u.deleted);
  }

  /** Nothing fails. */
  const ORDERLY := UnblockFaults(true, (k: nat) => Done)
  const SMOOTH := BlockFaults(ORDERLY, true, Done, true)

  /** Another process's marker finds the rule's own handle first: unblocking that one takes the rule. */
  lemma TakenByOther(p: U32, name: string, q: U32, uid: U32, handle: U64)
    requires q != p
    requires |ShownAs(p, name, handle, q)| > 0 && ShownAs(p, name, handle, q)[0] == handle
    ensures !SafeBeside(p, name, q, uid, handle, SMOOTH, ORDERLY)
  {
    var r, found := RuleFor(p, name, uid, handle), ShownAs(p, name, handle, q);
    BlockEnds(p, name, uid, handle, SMOOTH);
    FoundFor(p, name, uid, handle, q);
    WithoutAlone(r);
    DeleteEachSubset([], found, 1, ORDERLY.deleted);
    var blocked := Block(Start(handle), p, name, [], [], Some(uid), SMOOTH).state;
    assert Targets(blocked, q, true) == Some(found);
    assert Delete([r], found[0], Done) == (true, []);
  }

  /** An earlier line reads as a handle: what is remembered is not the rule there is. */
  lemma StrayRemembered(p: U32, name: string, uid: U32, handle: U64)
    requires |ShownAs(p, name, handle, p)| > 0 && ShownAs(p, name, handle, p)[0] != handle
    ensures !SafeBeside(p, name, p, uid, handle, SMOOTH, ORDERLY)
  {
    BlockEnds(p, name, uid, handle, SMOOTH);
  }

  /** The rule is not found at all: it stays although unblocking reports success. */
  lemma NotFoundStays(p: U32, name: string, uid: U32, handle: U64)
    requires ShownAs(p, name, handle, p) == []
    ensures !SafeBeside(p, name, p, uid, handle, SMOOTH, ORDERLY)
  {
    BlockEnds(p, name, uid, handle, SMOOTH);
    FoundFor(p, name, uid, handle, p);
  }

  lemma OtherwiseUnsafe(p: U32, name: string)
    requires !NameOk(p, name)
    ensures !SafeToBlock(p, name)
  {
    var c := Comment(p, name);
    if q: U32 :| Scan(EarlierParts(c), Marker(q)) != [] {
      var e := Scan(EarlierParts(c), Marker(q));
      if q == p {
        var handle := if e[0] == 0 then 1 else 0;
        StrayRemembered(p, name, 0, handle);
        assert !SafeBeside(p, name, p, 0, handle, SMOOTH, ORDERLY);
      } else {
        TakenByOther(p, name, q, 0, e[0]);
        assert !SafeBeside(p, name, q, 0, e[0], SMOOTH, ORDERLY);
      }
    } else if !Contains(LastPart(c), Marker(p)) {
      NotFoundStays(p, name, 0, 0);
      assert !SafeBeside(p, name, p, 0, 0, SMOOTH, ORDERLY);
    } else {
      var q: U32 :| q != p && Contains(LastPart(c), Marker(q));
      TakenByOther(p, name, q, 0, 0);
      assert !SafeBeside(p, name, q, 0, 0, SMOOTH, ORDERLY);
    }
  }

  /** The condition on names is exact, for every name. */
  lemma NameOkIsExact(p: U32, name: string)
    ensures SafeToBlock(p, name) <==> NameOk(p, name)
  {
    if NameOk(p, name) {
      forall q: U32, uid: U32, handle: U64, f: BlockFaults, u: UnblockFaults
        ensures SafeBeside(p, name, q, uid, handle, f, u)
      {
        OkIsSafe(p, name, q, uid, handle, f, u);
      }
    } else {
      OtherwiseUnsafe(p, name);
    }
  }

  // ---- Names that fail ----

  /** A legible name that spells another's marker: unblocking that one takes the rule away, and what
      is remembered goes stale. */
  lemma NamesMatter(p: U32, q: U32, name: string, uid: U32, handle: U64)
    requires p != q && Legible(p, name) && Contains(LastPart(Comment(p, name)), Marker(q))
    ensures var blocked := Block(Start(handle), p, name, [], [], Some(uid), SMOOTH);
            var unblocked := Unblock(blocked.state, q, ORDERLY);
            && blocked.ok && unblocked.ok && unblocked.state.chain == []
            && p in unblocked.state.tracked && unblocked.state.tracked[p] == [handle]
  {
    BlockEnds(p, name, uid, handle, SMOOTH);
    FoundFor(p, name, uid, handle, q);
    WithoutAlone(RuleFor(p, name, uid, handle));
    assert ShownAs(p, name, handle, p) == [handle] && ShownAs(p, name, handle, q) == [handle];
    var blocked := Block(Start(handle), p, name, [], [], Some(uid), SMOOTH).state;
    assert Targets(blocked, q, true) == Some([handle]);
    assert DeleteEach(blocked.chain, [handle], 0, ORDERLY.deleted) == (true, []);
  }

  /** A rule that is not found: blocking adds it and reports failure, unblocking reports success and
      leaves it. */
  lemma UnfoundRuleStays(p: U32, name: string, uid: U32, handle: U64)
    requires ShownAs(p, name, handle, p) == []
    ensures var blocked := Block(Start(handle), p, name, [], [], Some(uid), SMOOTH);
            var unblocked := Unblock(blocked.state, p, ORDERLY);
            !blocked.ok && unblocked.ok && unblocked.state.chain == [RuleFor(p, name, uid, handle)]
  {
    BlockEnds(p, name, uid, handle, SMOOTH);
    FoundFor(p, name, uid, handle, p);
  }

  /** A rule that is found as another: blocking and unblocking both report success, the other rule is
      gone and the rule itself stays. */
  lemma OtherRuleTaken(p: U32, name: string, uid: U32, other: Rule, handle: U64)
    requires other.handle < handle && FoundIn(other.body, other.handle, p) == []
    requires ShownAs(p, name, handle, p) == [other.handle]
    ensures var blocked := Block(State([other], handle, map[]), p, name, [], [], Some(uid), SMOOTH);
            var unblocked := Unblock(blocked.state, p, ORDERLY);
            && blocked.ok && blocked.state.tracked == map[p := [other.handle]]
            && unblocked.ok && unblocked.state.chain == [RuleFor(p, name, uid, handle)]
  {
    var r, s := RuleFor(p, name, uid, handle), State([other], handle, map[]);
    FoundAlone(other, p);
    UnblockNothing(s, p);
    FoundFor(p, name, uid, handle, p);
    FoundAlone(r, p);
    FoundPair(other, r, p);
    InsertSecond(other, p, r.body, handle);
    UnblockFirst(other, r, p);
  }

  lemma UnblockNothing(s: State, p: U32)
    requires Found(s.chain, p) == [] && s.tracked == map[]
    ensures Unblock(s, p, ORDERLY).state == s
  {
    assert s.tracked - {p} == s.tracked;
  }

  lemma InsertSecond(other: Rule, p: U32, body: string, handle: U64)
    requires other.handle < handle && Found([other, Rule(handle, body)], p) == [other.handle]
    ensures Insert(State([other], handle, map[]), p, [body], Done, true)
         == Step(true, State([other, Rule(handle, body)], handle + 1, map[p := [other.handle]]))
  {
    OneAdded(other, body, handle);
  }

  lemma UnblockFirst(other: Rule, r: Rule, p: U32)
    requires other.handle != r.handle
    ensures var step := Unblock(State([other, r], r.handle + 1, map[p := [other.handle]]), p, ORDERLY);
            step.ok && step.state.chain == [r]
  {
    WithoutFirst(other, r);
    assert DeleteEach([other, r], [other.handle], 0, ORDERLY.deleted) == (true, [r]);
  }

  lemma OneAdded(other: Rule, body: string, handle: U64)
    ensures Added([other], handle, [body]) == [other, Rule(handle, body)]
  {
    assert [body][1..] == [] && [other] + [Rule(handle, body)] == [other, Rule(handle, body)];
    assert Added([other], handle, [body]) == Added([other, Rule(handle, body)], handle + 1, []);
  }

  lemma FoundPair(a: Rule, b: Rule, q: U32)
    ensures Found([a, b], q) == Found([a], q) + FoundIn(b.body, b.handle, q)
  {
    assert [a, b][..1] == [a];
  }

  lemma WithoutFirst(a: Rule, b: Rule)
    requires a.handle != b.handle
    ensures Without([a, b], a.handle) == [b] && HasHandle([a, b], a.handle)
  {
    WithoutAlone(a);
    assert [a, b][..1] == [a] && a in [a, b];
  }

  // ---- Names of two lines ----

  lemma {:induction false} SafeKeeps(name: string)
    requires '"' !in name
    ensures Safe(name) == name
    decreases |name|
  {
    if name != "" { SafeKeeps(name[1..]); }
  }

  lemma {:induction false} LastPartAfter(a: string, b: string)
    requires '\n' !in b
    ensures LastPart(a + ['\n'] + b) == b
    decreases |b|
  {
    var s := a + ['\n'] + b;
    if b == "" {
      assert s[|s| - 1] == '\n';
    } else {
      LastPartAfter(a, b[..|b| - 1]);
      assert s[..|s| - 1] == a + ['\n'] + b[..|b| - 1];
      assert b == b[..|b| - 1] + [b[|b| - 1]];
    }
  }

  /** What is found of a rule under a name of two lines. */
  lemma TwoLinesShown(p: U32, a: string, b: string, handle: U64, q: U32)
    requires '"' !in a && '"' !in b && '\n' !in a && '\n' !in b
    ensures ShownAs(p, a + ['\n'] + b, handle, q)
         == HandlesOn(StripCr(Marker(p) + a), Marker(q)) + if Contains(b, Marker(q)) then [handle] else []
  {
    var name := a + ['\n'] + b;
    SafeKeeps(name);
    MarkerLetters(p);
    var c := Comment(p, name);
    assert c == (Marker(p) + a) + ['\n'] + b;
    LastPartAfter(Marker(p) + a, b);
    assert EarlierParts(c) == Marker(p) + a + ['\n'];
    ScanLine(Marker(p) + a, Marker(q));
  }

  lemma NoHandleOnLine(line: string, marker: string)
    requires 'h' !in line
    ensures HandlesOn(line, marker) == []
  {
    NoHandle(line);
  }

  /** A line break may hide a rule from its own marker. */
  lemma BrokenName(p: U32, handle: U64)
    ensures ShownAs(p, "a" + ['\n'] + "b", handle, p) == []
  {
    TwoLinesShown(p, "a", "b", handle, p);
    NoDashNoMarker("b", p);
    FirstHalf(p);
  }

  lemma FirstHalf(p: U32)
    ensures HandlesOn(StripCr(Marker(p) + "a"), Marker(p)) == []
  {
    MarkerLetters(p);
    MarkerHasNoH(p);
    NoHandleOnLine(Marker(p) + "a", Marker(p));
  }

  lemma MarkerHasNoH(p: U32)
    ensures 'h' !in Marker(p)
  {
    DecimalReads(p);
    assert 'h' !in RULE_COMMENT_PREFIX;
  }

  lemma NoHandle(s: string)
    requires 'h' !in s
    ensures HandleOf(s) == None
  {
    FrontKeepsHandle(s, "");
    assert s + "" == s;
  }

  lemma ReadsAs(line: string, marker: string, h: U64)
    requires Contains(line, marker) && HandleOf(line) == Some(h) && StripCr(line) == line
    ensures HandlesOn(StripCr(line), marker) == [h]
  {
  }

  lemma Joined(a: string, b: string, c: string)
    ensures a + b + c == a + (b + c)
  {
  }

  lemma LineReads(p: U32, h: U64)
    ensures HandlesOn(StripCr(Marker(p) + (HANDLE + Decimal(h))), Marker(p)) == [h]
  {
    Joined(Marker(p), HANDLE, Decimal(h));
    HandleAtEnd(Marker(p), h);
    EndsInDigit(Marker(p) + HANDLE, h);
    MarkerStands(p, HANDLE + Decimal(h));
    ReadsAs(Marker(p) + (HANDLE + Decimal(h)), Marker(p), h);
  }

  lemma LettersOfHandle(h: U64)
    ensures '"' !in HANDLE + Decimal(h) && '\n' !in HANDLE + Decimal(h)
  {
    DecimalReads(h);
  }

  /** Or make it read as any other. */
  lemma MisleadingName(p: U32, h: U64, handle: U64)
    ensures ShownAs(p, HANDLE + Decimal(h) + ['\n'] + "b", handle, p) == [h]
  {
    LettersOfHandle(h);
    TwoLinesShown(p, HANDLE + Decimal(h), "b", handle, p);
    NoDashNoMarker("b", p);
    LineReads(p, h);
  }

  lemma EndsInDigit(front: string, h: U64)
    ensures StripCr(front + Decimal(h)) == front + Decimal(h)
  {
    DecimalReads(h);
    assert Decimal(h)[|Decimal(h)| - 1] in Decimal(h);
  }

  lemma MarkerStands(p: U32, rest: string)
    ensures Contains(Marker(p) + rest, Marker(p))
  {
    assert StandsAt(Marker(p) + rest, Marker(p), 0);
  }

  // ---- A run that leaves a process stale ----

  /** Blocking a process and flushing without a report. */
  function StaleRun(p: U32, name: string, uid: U32): seq<Op> {
    [BlockOp(p, name, [], [], Some(uid), SMOOTH), UnblockAllOp(Unreported)]
  }

  lemma FlushedUnreported(s: State, op: Op)
    requires !op.UnblockAllOp?
    ensures var ops := [op, UnblockAllOp(Unreported)]; var before := Apply(s, op).state;
            Run(s, ops) == State([], before.nextHandle, before.tracked) && StaleAfter(s, ops) == before.tracked.Keys
  {
    var ops := [op, UnblockAllOp(Unreported)];
    assert ops[..1] == [op] && [op][..0] == [];
    assert Run(s, [op]) == Apply(Run(s, []), op).state;
  }

  lemma StaleReached(p: U32, name: string, uid: U32)
    requires NameOk(p, name)
    ensures StaleAfter(Start(0), StaleRun(p, name, uid)) == {p}
    ensures !Exact(Run(Start(0), StaleRun(p, name, uid)))
  {
    FlushedUnreported(Start(0), BlockOp(p, name, [], [], Some(uid), SMOOTH));
    BlockEnds(p, name, uid, 0, SMOOTH);
    OkShown(p, name, 0, p);
    var after := Run(Start(0), StaleRun(p, name, uid));
    assert p in after.tracked && HandlesOf(after.chain, p) == [];
  }
}
