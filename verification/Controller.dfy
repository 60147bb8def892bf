/** The controller as it runs: a map of handles beside a chain it does not own, reached only
    through nft commands that may fail. Each method is tied to the operation of RuleChain that
    says what it does. */
module Controller {
  import opened Net
  import opened Text
  import opened RuleText
  import opened RuleListing
  import C = RuleChain

  const TABLE_LINE := "table inet filter { # handle 1\n"
  const CHAIN_LINE := "\tchain output { # handle 1\n"
  const TYPE_LINE := "\t\ttype filter hook " + "output priority filter; " + "policy accept;\n"
  const CLOSING_LINES := "\t}\n}\n"

  function RuleLines(chain: seq<C.Rule>): string
    decreases |chain|
  {
    if |chain| == 0 then ""
    else
      var last := chain[|chain| - 1];
      RuleLines(chain[..|chain| - 1]) + (RuleLine(last.body, last.handle) + ['\n'])
  }

  /** What nft prints when asked for the chain with handles: a rule is one line of its own unless its
      comment breaks it. */
  function Listing(chain: seq<C.Rule>): string {
    TABLE_LINE + (CHAIN_LINE + (TYPE_LINE + (RuleLines(chain) + CLOSING_LINES)))
  }

  /** A text that ends with a line break may be searched apart from what follows it. */
  lemma ScanApart(a: string, b: string, marker: string)
    requires a == "" || a[|a| - 1] == '\n'
    ensures Scan(a + b, marker) == Scan(a, marker) + Scan(b, marker)
  {
    if a == "" {
      assert a + b == b && Scan("", marker) == [];
    } else {
      var front := a[..|a| - 1];
      assert a == front + ['\n'] && a + b == front + ['\n'] + b;
      ScanJoin(front, b, marker);
    }
  }

  lemma {:induction false} RuleLinesFound(chain: seq<C.Rule>, pid: U32)
    ensures Scan(RuleLines(chain), Marker(pid)) == C.Found(chain, pid)
    ensures RuleLines(chain) == "" || RuleLines(chain)[|RuleLines(chain)| - 1] == '\n'
    decreases |chain|
  {
    if |chain| > 0 {
      var front, last := chain[..|chain| - 1], chain[|chain| - 1];
      RuleLinesFound(front, pid);
      ScanApart(RuleLines(front), RuleLine(last.body, last.handle) + ['\n'], Marker(pid));
    }
  }

  lemma NoDashNothing(line: string, pid: U32)
    requires '-' !in line
    ensures Scan(line, Marker(pid)) == []
  {
    NoDashNoMarker(line, pid);
    NothingToFind(line, Marker(pid));
  }

  lemma LettersOfLines()
    ensures '-' !in TABLE_LINE
    ensures '-' !in CHAIN_LINE
    ensures '-' !in CLOSING_LINES
  {
  }

  lemma LettersOfType()
    ensures '-' !in TYPE_LINE
  {
    assert '-' !in "\t\ttype filter hook ";
    assert '-' !in "output priority filter; ";
    assert '-' !in "policy accept;\n";
  }

  lemma OtherLines(pid: U32)
    ensures Scan(TABLE_LINE, Marker(pid)) == Scan(CHAIN_LINE, Marker(pid)) == Scan(TYPE_LINE, Marker(pid)) == []
    ensures Scan(CLOSING_LINES, Marker(pid)) == []
  {
    LettersOfLines();
    LettersOfType();
    NoDashNothing(TABLE_LINE, pid);
    NoDashNothing(CHAIN_LINE, pid);
    NoDashNothing(TYPE_LINE, pid);
    NoDashNothing(CLOSING_LINES, pid);
  }

  lemma OtherLinesEnd()
    ensures TABLE_LINE[|TABLE_LINE| - 1] == CHAIN_LINE[|CHAIN_LINE| - 1] == TYPE_LINE[|TYPE_LINE| - 1] == '\n'
  {
  }

  lemma ScanPast(line: string, rest: string, pid: U32)
    requires line != "" && line[|line| - 1] == '\n' && Scan(line, Marker(pid)) == []
    ensures Scan(line + rest, Marker(pid)) == Scan(rest, Marker(pid))
  {
    ScanApart(line, rest, Marker(pid));
  }

  /** Searching the lines of the listing for a marker finds what is found of each rule, in order. */
  lemma ListingHandles(chain: seq<C.Rule>, pid: U32)
    ensures Scan(Listing(chain), Marker(pid)) == C.Found(chain, pid)
  {
    OtherLines(pid);
    OtherLinesEnd();
    RuleLinesFound(chain, pid);
    var rules := RuleLines(chain) + CLOSING_LINES;
    ScanApart(RuleLines(chain), CLOSING_LINES, Marker(pid));
    ScanPast(TYPE_LINE, rules, pid);
    ScanPast(CHAIN_LINE, TYPE_LINE + rules, pid);
    ScanPast(TABLE_LINE, CHAIN_LINE + (TYPE_LINE + rules), pid);
  }

  class Controller {
    // nft's side
    var chain: seq<C.Rule>
    var nextHandle: nat
    // ours
    var rulesByPid: map<U32, seq<U64>>

    function View(): C.State
      reads this
    {
      C.State(chain, nextHandle, rulesByPid)
    }

    constructor (chain: seq<C.Rule>, nextHandle: nat)
      ensures View() == C.State(chain, nextHandle, map[])
    {
      this.chain, this.nextHandle, rulesByPid := chain, nextHandle, map[];
    }

    // ---- nft commands ----

    method NftDelete(handle: U64, o: C.Outcome) returns (ok: bool)
      modifies this`chain
      ensures (ok, chain) == C.Delete(old(chain), handle, o)
    {
      if !C.HasHandle(chain, handle) || o.Rejected? { return false; }
      chain := C.Without(chain, handle);
      ok := o.Done?;
    }

    /** A script is read as a whole before any of it takes effect. */
    method NftScript(script: string, o: C.Outcome) returns (ok: bool)
      modifies this`chain, this`nextHandle
      ensures var bodies := BodiesOf(script);
              if bodies.None? || o.Rejected? || old(nextHandle) + |bodies.value| > U64_MAX + 1
              then !ok && chain == old(chain) && nextHandle == old(nextHandle)
              else ok == o.Done? && chain == C.Added(old(chain), old(nextHandle), bodies.value)
                   && nextHandle == old(nextHandle) + |bodies.value|
    {
      var bodies := BodiesOf(script);
      if bodies.None? || o.Rejected? || nextHandle + |bodies.value| > U64_MAX + 1 { return false; }
      chain := C.Added(chain, nextHandle, bodies.value);
      nextHandle := nextHandle + |bodies.value|;
      ok := o.Done?;
    }

    method NftFlush(o: C.Outcome) returns (ok: bool)
      modifies this`chain
      ensures ok == o.Done? && chain == if o.Rejected? then old(chain) else []
    {
      if o.Rejected? { return false; }
      chain := [];
      ok := o.Done?;
    }

    // ---- The program ----

    method FindRuleHandlesForPid(pid: U32, listed: bool) returns (r: Option<seq<U64>>)
      ensures r == if listed then Some(C.Found(chain, pid)) else None
    {
      if !listed { return None; }
      var handles := FindHandles(Lines(Listing(chain)), Marker(pid));
      ListingHandles(chain, pid);
      r := Some(handles);
    }

    method UnblockProcess(pid: U32, f: C.UnblockFaults) returns (ok: bool)
      modifies this
      ensures C.Step(ok, View()) == C.Unblock(old(View()), pid, f)
    {
      var handles: seq<U64> := [];
      if pid in rulesByPid {
        handles := rulesByPid[pid];
        rulesByPid := rulesByPid - {pid};
      }
      assert rulesByPid == old(rulesByPid) - {pid};
      if |handles| == 0 {
        var found := FindRuleHandlesForPid(pid, f.listed);
        if found.None? { return false; }
        handles := found.value;
      }
      ok := DeleteHandles(handles, f.deleted);
    }

    method DeleteHandles(handles: seq<U64>, faults: nat -> C.Outcome) returns (ok: bool)
      modifies this`chain
      ensures (ok, chain) == C.DeleteEach(old(chain), handles, 0, faults)
    {
      for n := 0 to |handles|
        invariant C.DeleteEach(old(chain), handles, 0, faults) == C.DeleteEach(chain, handles, n, faults)
      {
        var deleted := NftDelete(handles[n], faults(n));
        if !deleted { return false; }
      }
      ok := true;
    }

    method BlockProcess(pid: U32, name: string, tcp: seq<U16>, udp: seq<U16>, uid: Option<U32>, f: C.BlockFaults)
        returns (ok: bool)
      modifies this
      ensures C.Step(ok, View()) == C.Block(old(View()), pid, name, tcp, udp, uid, f)
    {
      var _ := UnblockProcess(pid, f.unblock);
      if !f.portsRead { return false; }
      var rules := RulesFor(pid, name, tcp, udp, uid);
      if rules.None? { return false; }
      ok := InsertRules(pid, rules.value, f.added, f.listed);
    }

    /** The script for nft, which reads it as exactly the rules that are meant. */
    method RulesFor(pid: U32, name: string, tcp: seq<U16>, udp: seq<U16>, uid: Option<U32>)
        returns (rules: Option<string>)
      ensures if rules.None? then C.BodiesFor(pid, name, tcp, udp, uid).None?
              else BodiesOf(rules.value) == C.BodiesFor(pid, name, tcp, udp, uid) && BodiesOf(rules.value).Some?
    {
      var comment := Comment(pid, name);
      OneRuleEach(pid, name, tcp, udp, uid);
      if |tcp| == 0 && |udp| == 0 {
        if uid.None? { return None; }
        return Some(ADD_RULE + UserBody(uid.value, comment) + "\n");
      }
      var ruleset := BuildBlockRuleset(tcp, udp, comment);
      return Some(ruleset);
    }

    method InsertRules(pid: U32, rules: string, added: C.Outcome, listed: bool) returns (ok: bool)
      requires BodiesOf(rules).Some?
      modifies this
      ensures C.Step(ok, View()) == C.Insert(old(View()), pid, BodiesOf(rules).value, added, listed)
    {
      var inserted := NftScript(rules, added);
      if !inserted { return false; }
      var handles := FindRuleHandlesForPid(pid, listed);
      if handles.None? || |handles.value| == 0 { return false; }
      rulesByPid := rulesByPid[pid := handles.value];
      return true;
    }

    method UnblockAll(flushed: C.Outcome) returns (ok: bool)
      modifies this
      ensures C.Step(ok, View()) == C.UnblockAll(old(View()), flushed)
    {
      ok := NftFlush(flushed);
      if !ok { return; }
      rulesByPid := map[];
    }
  }

  // ---- Every rule is one statement of the script ----

  lemma PortBodyCloses(transport: string, ports: seq<U16>, pid: U32, name: string)
    requires '"' !in transport && '\n' !in transport
    ensures Closed(PortBody(transport, ports, Comment(pid, name)), false)
  {
    PortLetters(ports);
    var front := transport + " sport { " + JoinPorts(ports) + " } comment ";
    assert '\n' !in front && '"' !in front;
    QuotedCloses(front, pid, name);
  }

  lemma UserBodyCloses(uid: U32, pid: U32, name: string)
    ensures Closed(UserBody(uid, Comment(pid, name)), false)
  {
    DecimalReads(uid);
    var front := "meta skuid " + Decimal(uid) + " comment ";
    assert '\n' !in front && '"' !in front;
    QuotedCloses(front, pid, name);
  }

  lemma OneRuleScript(body: string)
    requires Closed(body, false)
    ensures BodiesOf(ADD_RULE + body + "\n") == Some([body])
  {
    ScriptReads([body]);
    ScriptGrows([], body);
    assert [] + [body] == [body];
    assert ScriptOf([]) + (ADD_RULE + body + "\n") == ADD_RULE + body + "\n";
  }

  /** Whatever the name, the script that is sent is read by nft as exactly the rules that were meant. */
  lemma OneRuleEach(pid: U32, name: string, tcp: seq<U16>, udp: seq<U16>, uid: Option<U32>)
    ensures var bodies := BlockBodies(tcp, udp, Comment(pid, name)); BodiesOf(ScriptOf(bodies)) == Some(bodies)
    ensures uid.Some? ==>
              var body := UserBody(uid.value, Comment(pid, name)); BodiesOf(ADD_RULE + body + "\n") == Some([body])
  {
    PortBodyCloses("tcp", tcp, pid, name);
    PortBodyCloses("udp", udp, pid, name);
    ScriptReads(BlockBodies(tcp, udp, Comment(pid, name)));
    if uid.Some? {
      UserBodyCloses(uid.value, pid, name);
      OneRuleScript(UserBody(uid.value, Comment(pid, name)));
    }
  }
}
