/** What a rule does, read off its words: which packets it drops. */
module RuleMeaning {
  import opened Net
  import opened Text
  import opened RuleText
  import opened RuleListing
  import opened RuleChain
  import opened RuleRuns

  /** Packets from these source ports of a transport, or packets of this user. */
  datatype Meaning = DropFrom(transport: string, ports: seq<U16>) | DropOf(uid: U32)

  /** Reads a list of ports: decimal numbers, with a comma after each but the last. */
  function ReadPorts(words: seq<string>): Option<seq<U16>>
    decreases |words|
  {
    if |words| == 0 then None
    else if |words| == 1 then
      var last := FromStrRadix(words[0], 10, 65535);
      if last.None? then None else Some([last.value])
    else
      var w := words[0];
      if w == "" || w[|w| - 1] != ',' then None
      else
        var first, rest := FromStrRadix(w[..|w| - 1], 10, 65535), ReadPorts(words[1..]);
        if first.None? || rest.None? then None else Some([first.value] + rest.value)
  }

  /** Reads the words before the comment of a rule that drops. */
  function ReadMatch(words: seq<string>): Option<Meaning> {
    var n := |words|;
    if n > 5 && words[1] == "sport" && words[2] == "{" && words[n - 2] == "}" && words[n - 1] == "comment" then
      var ports := ReadPorts(words[3..n - 2]);
      if ports.None? then None else Some(DropFrom(words[0], ports.value))
    else if n == 4 && words[0] == "meta" && words[1] == "skuid" && words[3] == "comment" then
      var uid := FromStrRadix(words[2], 10, U32_MAX);
      if uid.None? then None else Some(DropOf(uid.value))
    else None
  }

  /** Reads a rule: words, a comment in quotes, and the verdict. */
  function MeaningOf(body: string): Option<Meaning> {
    var head := Before(body, '"');
    if |head| >= |body| then None
    else
      var rest := body[|head| + 1..];
      var comment := Before(rest, '"');
      if |comment| >= |rest| || SplitWhitespace(rest[|comment| + 1..]) != ["drop"] then None
      else ReadMatch(SplitWhitespace(head))
  }

  // ---- Reading back what was written ----

  lemma DropWord()
    ensures SplitWhitespace(" drop") == ["drop"]
  {
    SingleWord("drop");
    SplitJoin("", "drop");
    assert "" + [' '] + "drop" == " drop";
  }

  lemma QuotedReads(front: string, comment: string)
    requires '"' !in front && '"' !in comment
    ensures MeaningOf(Quoted(front, comment)) == ReadMatch(SplitWhitespace(front))
  {
    var rest := comment + ['"'] + " drop";
    var body := Quoted(front, comment);
    assert body == front + ['"'] + rest;
    BeforeFirst(front, '"', rest);
    assert body[|front| + 1..] == rest;
    BeforeFirst(comment, '"', " drop");
    assert rest[|comment| + 1..] == " drop";
    DropWord();
  }

  function PortWords(ports: seq<U16>): seq<string> {
    if |ports| == 0 then []
    else if |ports| == 1 then [Decimal(ports[0])]
    else [Decimal(ports[0]) + ","] + PortWords(ports[1..])
  }

  lemma DecimalIsWord(n: nat)
    ensures IsWord(Decimal(n)) && IsWord(Decimal(n) + ",")
  {
    DecimalReads(n);
  }

  lemma CommaBlank(a: string, b: string)
    ensures a + ", " + b == (a + ",") + [' '] + b
  {
    assert ", " == "," + [' '];
  }

  lemma JoinStep(ports: seq<U16>)
    requires |ports| > 1
    ensures JoinPorts(ports) == (Decimal(ports[0]) + ",") + [' '] + JoinPorts(ports[1..])
  {
    CommaBlank(Decimal(ports[0]), JoinPorts(ports[1..]));
  }

  lemma {:induction false} PortsSplit(ports: seq<U16>)
    requires |ports| > 0
    ensures SplitWhitespace(JoinPorts(ports)) == PortWords(ports)
    decreases |ports|
  {
    DecimalIsWord(ports[0]);
    if |ports| == 1 {
      SingleWord(Decimal(ports[0]));
    } else {
      PortsSplit(ports[1..]);
      JoinStep(ports);
      WordAhead(Decimal(ports[0]) + ",", JoinPorts(ports[1..]));
    }
  }

  lemma {:induction false} PortsRead(ports: seq<U16>)
    requires |ports| > 0
    ensures |PortWords(ports)| == |ports| && ReadPorts(PortWords(ports)) == Some(ports)
    decreases |ports|
  {
    DecimalParses(ports[0], 65535);
    if |ports| > 1 {
      PortsRead(ports[1..]);
      var words := PortWords(ports);
      assert words[1..] == PortWords(ports[1..]);
      assert words[0][..|words[0]| - 1] == Decimal(ports[0]);
      assert [ports[0]] + ports[1..] == ports;
    } else {
      assert [ports[0]] == ports;
    }
  }

  lemma Phrase1(a: string)
    ensures Phrase([a]) == a + [' ']
  {
    assert [a][1..] == [] && Phrase([]) == "";
  }

  lemma Phrase2(a: string, b: string)
    ensures Phrase([a, b]) == a + [' '] + (b + [' '])
  {
    Phrase1(b);
    assert [a, b][1..] == [b];
  }

  lemma Phrase3(a: string, b: string, c: string)
    ensures Phrase([a, b, c]) == a + [' '] + (b + [' '] + (c + [' ']))
  {
    Phrase2(b, c);
    assert [a, b, c][1..] == [b, c];
  }

  lemma PortFrontParts(transport: string, list: string)
    ensures transport + " sport { " + list + " } comment "
         == Phrase([transport, "sport", "{"]) + (list + [' '] + Phrase(["}", "comment"]))
  {
    Phrase3(transport, "sport", "{");
    Phrase2("}", "comment");
    assert " sport { " == [' '] + ("sport" + [' '] + ("{" + [' ']));
    assert " } comment " == [' '] + ("}" + [' '] + ("comment" + [' ']));
  }

  lemma ClosingWords()
    ensures SplitWhitespace(Phrase(["}", "comment"])) == ["}", "comment"]
  {
    PhraseAhead(["}", "comment"], "");
    assert Phrase(["}", "comment"]) + "" == Phrase(["}", "comment"]);
    assert SplitWhitespace("") == [];
  }

  lemma PortFrontWords(transport: string, ports: seq<U16>)
    requires IsWord(transport) && |ports| > 0
    ensures SplitWhitespace(transport + " sport { " + JoinPorts(ports) + " } comment ")
         == [transport, "sport", "{"] + (PortWords(ports) + ["}", "comment"])
  {
    PortFrontParts(transport, JoinPorts(ports));
    PhraseAhead([transport, "sport", "{"], JoinPorts(ports) + [' '] + Phrase(["}", "comment"]));
    SplitJoin(JoinPorts(ports), Phrase(["}", "comment"]));
    PortsSplit(ports);
    ClosingWords();
  }

  /** The rule for ports drops exactly packets from these source ports of that transport. */
  lemma PortBodyMeans(transport: string, ports: seq<U16>, pid: U32, name: string)
    requires IsWord(transport) && '"' !in transport && |ports| > 0
    ensures MeaningOf(PortBody(transport, ports, Comment(pid, name))) == Some(DropFrom(transport, ports))
  {
    PortLetters(ports);
    MarkerLetters(pid);
    var front := transport + " sport { " + JoinPorts(ports) + " } comment ";
    assert '"' !in front && '"' !in Comment(pid, name);
    QuotedReads(front, Comment(pid, name));
    PortFrontWords(transport, ports);
    PortsRead(ports);
    PortMatch(transport, ports);
  }

  lemma PortMatch(transport: string, ports: seq<U16>)
    requires |ports| > 0 && |PortWords(ports)| == |ports| && ReadPorts(PortWords(ports)) == Some(ports)
    ensures ReadMatch([transport, "sport", "{"] + (PortWords(ports) + ["}", "comment"]))
         == Some(DropFrom(transport, ports))
  {
    var words := [transport, "sport", "{"] + (PortWords(ports) + ["}", "comment"]);
    assert words[3..|words| - 2] == PortWords(ports);
  }

  lemma UserFrontParts(number: string)
    ensures "meta skuid " + number + " comment " == Phrase(["meta", "skuid"]) + Phrase([number, "comment"])
  {
    Phrase2("meta", "skuid");
    Phrase2(number, "comment");
    assert "meta skuid " == "meta" + [' '] + ("skuid" + [' ']);
    assert " comment " == [' '] + ("comment" + [' ']);
  }

  lemma UserFrontWords(number: string)
    requires IsWord(number)
    ensures SplitWhitespace("meta skuid " + number + " comment ") == ["meta", "skuid"] + [number, "comment"]
  {
    UserFrontParts(number);
    PhraseAhead(["meta", "skuid"], Phrase([number, "comment"]));
    PhraseAhead([number, "comment"], "");
    assert Phrase([number, "comment"]) + "" == Phrase([number, "comment"]);
    assert SplitWhitespace("") == [];
  }

  /** The rule for a user drops exactly that user's packets. */
  lemma UserBodyMeans(uid: U32, pid: U32, name: string)
    ensures MeaningOf(UserBody(uid, Comment(pid, name))) == Some(DropOf(uid))
  {
    DecimalReads(uid);
    DecimalIsWord(uid);
    DecimalParses(uid, U32_MAX);
    MarkerLetters(pid);
    var front := "meta skuid " + Decimal(uid) + " comment ";
    assert '"' !in front && '"' !in Comment(pid, name);
    QuotedReads(front, Comment(pid, name));
    UserFrontWords(Decimal(uid));
  }

  // ---- What is blocked ----

  /** A rule drops packets from a source port of a transport. */
  ghost predicate DropsFrom(body: string, transport: string, port: U16) {
    match MeaningOf(body)
    case Some(DropFrom(t, ports)) => t == transport && port in ports
    case _ => false
  }

  ghost predicate DropsUser(body: string, uid: U32) {
    MeaningOf(body) == Some(DropOf(uid))
  }

  /** The port rules block a source port of a transport if and only if it was given for that transport,
      and no user. */
  lemma PortsBlockedExactly(tcp: seq<U16>, udp: seq<U16>, pid: U32, name: string, transport: string, port: U16)
    ensures (exists b :: b in BlockBodies(tcp, udp, Comment(pid, name)) && DropsFrom(b, transport, port))
       <==> (transport == "tcp" && port in tcp) || (transport == "udp" && port in udp)
    ensures forall b, uid: U32 :: b in BlockBodies(tcp, udp, Comment(pid, name)) ==> !DropsUser(b, uid)
  {
    var bodies := BlockBodies(tcp, udp, Comment(pid, name));
    if |tcp| > 0 {
      PortBodyMeans("tcp", tcp, pid, name);
      assert PortBody("tcp", tcp, Comment(pid, name)) in bodies;
    }
    if |udp| > 0 {
      PortBodyMeans("udp", udp, pid, name);
      assert PortBody("udp", udp, Comment(pid, name)) in bodies;
    }
  }

  const STATEMENT := ["add", "rule", "inet", "filter", "output"]

  lemma StatementStart()
    ensures ADD_RULE == Phrase(STATEMENT)
  {
    Phrase3("inet", "filter", "output");
    assert STATEMENT[1..] == ["rule", "inet", "filter", "output"];
    assert STATEMENT[1..][1..] == ["inet", "filter", "output"];
    assert ADD_RULE == "add" + [' '] + ("rule" + [' '] + ("inet" + [' '] + ("filter" + [' '] + ("output" + [' ']))));
  }

  /** Every statement adds a rule to the output chain of the filter table. */
  lemma StatementWords(body: string)
    ensures SplitWhitespace(ADD_RULE + body) == STATEMENT + SplitWhitespace(body)
  {
    StatementStart();
    PhraseAhead(STATEMENT, body);
  }

  // ---- What a blocking blocks ----

  ghost predicate SomeDropsFrom(chain: seq<Rule>, transport: string, port: U16) {
    exists r :: r in chain && DropsFrom(r.body, transport, port)
  }

  ghost predicate SomeDropsUser(chain: seq<Rule>, uid: U32) {
    exists r :: r in chain && DropsUser(r.body, uid)
  }

  lemma {:induction false} AddedBodies(chain: seq<Rule>, next: nat, bodies: seq<string>)
    requires next + |bodies| <= U64_MAX + 1
    ensures chain <= Added(chain, next, bodies)
    ensures forall b :: b in bodies <==> exists r :: r in Added(chain, next, bodies)[|chain|..] && r.body == b
    decreases |bodies|
  {
    var after := Added(chain, next, bodies);
    if |bodies| == 0 {
      assert after[|chain|..] == [];
    } else {
      var first := Rule(next, bodies[0]);
      AddedBodies(chain + [first], next + 1, bodies[1..]);
      assert after[|chain|] == first;
      assert after[|chain|..] == [first] + after[|chain| + 1..];
      assert bodies == [bodies[0]] + bodies[1..];
    }
  }

  lemma BodiesBlock(pid: U32, name: string, tcp: seq<U16>, udp: seq<U16>, uid: Option<U32>, transport: string,
                    port: U16, user: U32)
    requires BodiesFor(pid, name, tcp, udp, uid).Some?
    ensures var bodies, byPort := BodiesFor(pid, name, tcp, udp, uid).value, |tcp| + |udp| > 0;
            && ((exists b :: b in bodies && DropsFrom(b, transport, port)) <==>
                (transport == "tcp" && port in tcp) || (transport == "udp" && port in udp))
            && ((exists b :: b in bodies && DropsUser(b, user)) <==> !byPort && uid == Some(user))
  {
    PortsBlockedExactly(tcp, udp, pid, name, transport, port);
    if |tcp| == 0 && |udp| == 0 {
      UserBodyMeans(uid.value, pid, name);
      assert UserBody(uid.value, Comment(pid, name)) in BodiesFor(pid, name, tcp, udp, uid).value;
    }
  }

  /** A blocking that succeeds has added, behind what was there, rules that drop packets from a source
      port of a transport if and only if the process had it, and from its user if and only if it had no
      port at all. */
  lemma BlockBlocksExactly(s: State, pid: U32, name: string, tcp: seq<U16>, udp: seq<U16>, uid: Option<U32>,
                           f: BlockFaults, transport: string, port: U16, user: U32)
    requires Sound(s) && NameOk(pid, name) && Block(s, pid, name, tcp, udp, uid, f).ok
    ensures var before := Unblock(s, pid, f.unblock).state.chain;
            var after := Block(s, pid, name, tcp, udp, uid, f).state.chain;
            && before <= after
            && (SomeDropsFrom(after[|before|..], transport, port) <==>
                (transport == "tcp" && port in tcp) || (transport == "udp" && port in udp))
            && (SomeDropsUser(after[|before|..], user) <==> |tcp| + |udp| == 0 && uid == Some(user))
  {
    BlockSucceeds(s, pid, name, tcp, udp, uid, f);
    var s' := Unblock(s, pid, f.unblock).state;
    var bodies := BodiesFor(pid, name, tcp, udp, uid).value;
    AddedBodies(s'.chain, s'.nextHandle, bodies);
    BodiesBlock(pid, name, tcp, udp, uid, transport, port, user);
    AddedDrop(bodies, Added(s'.chain, s'.nextHandle, bodies)[|s'.chain|..], transport, port, user);
  }

  lemma AddedDrop(bodies: seq<string>, added: seq<Rule>, transport: string, port: U16, user: U32)
    requires forall b :: b in bodies <==> exists r :: r in added && r.body == b
    ensures SomeDropsFrom(added, transport, port) <==> exists b :: b in bodies && DropsFrom(b, transport, port)
    ensures SomeDropsUser(added, user) <==> exists b :: b in bodies && DropsUser(b, user)
  {
    forall r | r in added ensures r.body in bodies {
      assert r.body == r.body;
    }
  }
}
