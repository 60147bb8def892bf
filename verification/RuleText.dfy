/** The text of nftables rules: the comment that marks a rule as ours, the script that adds rules,
    and the listing in which their handles are found again. */
module RuleText {
  import opened Net
  import opened Text

  const RULE_COMMENT_PREFIX := "netmon-pid-"
  const HANDLE := "handle "

  // ---- Searching text ----

  predicate StandsAt(s: string, t: string, i: nat) {
    i + |t| <= |s| && s[i..i + |t|] == t
  }

  /** `str::contains`. */
  predicate Contains(s: string, t: string) {
    exists i :: 0 <= i <= |s| && StandsAt(s, t, i)
  }

  /** `str::rfind`, among the places up to `n`. */
  function LastIndex(s: string, t: string, n: nat): (r: Option<nat>)
    requires n + |t| <= |s|
    ensures r.Some? ==> r.value <= n && s[r.value..r.value + |t|] == t
  {
    if s[n..n + |t|] == t then Some(n) else if n == 0 then None else LastIndex(s, t, n - 1)
  }

  function RFind(s: string, t: string): (r: Option<nat>)
    ensures r.Some? ==> r.value + |t| <= |s|
  {
    if |s| < |t| then None else LastIndex(s, t, |s| - |t|)
  }

  function DropSpacesBack(s: string): string {
    if s != "" && IsSpace(s[|s| - 1]) then DropSpacesBack(s[..|s| - 1]) else s
  }

  /** `str::trim`. */
  function Trim(s: string): string {
    DropSpacesBack(DropSpaces(s))
  }

  // ---- Comments and markers ----

  /** The name with its quotes replaced. */
  function Safe(name: string): (r: string)
    ensures |r| == |name| && '"' !in r
  {
    if name == "" then "" else [if name[0] == '"' then '_' else name[0]] + Safe(name[1..])
  }

  /** Every other letter is kept. */
  lemma {:induction false} SafeAt(name: string, i: nat)
    requires i < |name|
    ensures Safe(name)[i] == if name[i] == '"' then '_' else name[i]
    decreases |name|
  {
    if i > 0 { SafeAt(name[1..], i - 1); }
  }

  function Marker(pid: U32): string {
    RULE_COMMENT_PREFIX + Decimal(pid) + "-"
  }

  function Comment(pid: U32, name: string): string {
    Marker(pid) + Safe(name)
  }

  function JoinPorts(ports: seq<U16>): string {
    if |ports| == 0 then ""
    else if |ports| == 1 then Decimal(ports[0])
    else Decimal(ports[0]) + ", " + JoinPorts(ports[1..])
  }

  function Quoted(front: string, comment: string): string {
    front + "\"" + comment + "\" drop"
  }

  function PortBody(transport: string, ports: seq<U16>, comment: string): string {
    Quoted(transport + " sport { " + JoinPorts(ports) + " } comment ", comment)
  }

  function UserBody(uid: U32, comment: string): string {
    Quoted("meta skuid " + Decimal(uid) + " comment ", comment)
  }

  /** The rules that block these ports. */
  function BlockBodies(tcp: seq<U16>, udp: seq<U16>, comment: string): seq<string> {
    (if |tcp| > 0 then [PortBody("tcp", tcp, comment)] else [])
    + (if |udp| > 0 then [PortBody("udp", udp, comment)] else [])
  }

  const ADD_RULE := "add rule inet filter output "

  function ScriptOf(bodies: seq<string>): string {
    if |bodies| == 0 then "" else ADD_RULE + bodies[0] + "\n" + ScriptOf(bodies[1..])
  }

  method BuildBlockRuleset(tcp: seq<U16>, udp: seq<U16>, comment: string) returns (ruleset: string)
    ensures ruleset == ScriptOf(BlockBodies(tcp, udp, comment))
  {
    ruleset := "";
    ghost var bodies: seq<string> := [];
    if |tcp| > 0 {
      ScriptGrows(bodies, PortBody("tcp", tcp, comment));
      ruleset := ruleset + (ADD_RULE + PortBody("tcp", tcp, comment) + "\n");
      bodies := bodies + [PortBody("tcp", tcp, comment)];
    }
    if |udp| > 0 {
      ScriptGrows(bodies, PortBody("udp", udp, comment));
      ruleset := ruleset + (ADD_RULE + PortBody("udp", udp, comment) + "\n");
      bodies := bodies + [PortBody("udp", udp, comment)];
    }
    assert bodies == BlockBodies(tcp, udp, comment);
  }

  lemma {:induction false} ScriptGrows(bodies: seq<string>, body: string)
    ensures ScriptOf(bodies + [body]) == ScriptOf(bodies) + (ADD_RULE + body + "\n")
    decreases |bodies|
  {
    if |bodies| == 0 {
      assert (bodies + [body])[1..] == [];
    } else {
      assert (bodies + [body])[1..] == bodies[1..] + [body];
      ScriptGrows(bodies[1..], body);
    }
  }

  /** How far a statement reaches: to a line break that is not within quotes. */
  function StatementLength(s: string, quoted: bool): (n: nat)
    ensures n <= |s|
  {
    if s == "" || (s[0] == '\n' && !quoted) then 0
    else 1 + StatementLength(s[1..], if s[0] == '"' then !quoted else quoted)
  }

  /** Quotes are paired, and there is no line break outside them. */
  predicate Closed(s: string, quoted: bool) {
    if s == "" then !quoted
    else !(s[0] == '\n' && !quoted) && Closed(s[1..], if s[0] == '"' then !quoted else quoted)
  }

  lemma {:induction false} StatementEnds(s: string, rest: string, quoted: bool)
    requires Closed(s, quoted)
    ensures StatementLength(s + ['\n'] + rest, quoted) == |s|
    decreases |s|
  {
    if s != "" {
      assert (s + ['\n'] + rest)[1..] == s[1..] + ['\n'] + rest;
      StatementEnds(s[1..], rest, if s[0] == '"' then !quoted else quoted);
    }
  }

  lemma {:induction false} ClosedAfter(front: string, s: string, quoted: bool)
    requires '"' !in front && (quoted || '\n' !in front)
    ensures Closed(front + s, quoted) == Closed(s, quoted)
    decreases |front|
  {
    if front == "" {
      assert front + s == s;
    } else {
      assert (front + s)[1..] == front[1..] + s;
      ClosedAfter(front[1..], s, quoted);
    }
  }

  /** How nft reads a script: one rule to a statement, nothing else. */
  function BodiesOf(script: string): Option<seq<string>>
    decreases |script|
  {
    if script == "" then Some([])
    else
      var n := StatementLength(script, false);
      if n >= |script| || !(ADD_RULE <= script[..n]) then None
      else
        var rest := BodiesOf(script[n + 1..]);
        if rest.None? then None else Some([script[|ADD_RULE|..n]] + rest.value)
  }

  lemma FirstStatement(body: string, rest: string)
    requires Closed(body, false)
    ensures StatementLength(ADD_RULE + body + ['\n'] + rest, false) == |ADD_RULE + body|
  {
    ClosedAfter(ADD_RULE, body, false);
    StatementEnds(ADD_RULE + body, rest, false);
  }

  /** nft reads back the rules that the script was made of. */
  lemma {:induction false} ScriptReads(bodies: seq<string>)
    requires forall b :: b in bodies ==> Closed(b, false)
    ensures BodiesOf(ScriptOf(bodies)) == Some(bodies)
    decreases |bodies|
  {
    if |bodies| > 0 {
      var line, rest := ADD_RULE + bodies[0], ScriptOf(bodies[1..]);
      var script := ScriptOf(bodies);
      assert bodies[0] in bodies;
      assert script == line + ['\n'] + rest;
      FirstStatement(bodies[0], rest);
      ScriptReads(bodies[1..]);
      assert script[|line| + 1..] == rest;
      assert script[..|line|] == line && script[|ADD_RULE|..|line|] == bodies[0];
      assert [bodies[0]] + bodies[1..] == bodies;
    }
  }

  /** Whatever the name, a rule is one statement: the name has no quotes of its own left. */
  lemma QuotedCloses(front: string, pid: U32, name: string)
    requires '"' !in front && '\n' !in front
    ensures Closed(Quoted(front, Comment(pid, name)), false)
  {
    var comment, back := Comment(pid, name), " drop";
    MarkerLetters(pid);
    assert '"' !in comment;
    assert Quoted(front, comment) == front + (['"'] + (comment + (['"'] + back)));
    ClosedAfter(front, ['"'] + (comment + (['"'] + back)), false);
    assert (['"'] + (comment + (['"'] + back)))[1..] == comment + (['"'] + back);
    ClosedAfter(comment, ['"'] + back, true);
    assert (['"'] + back)[1..] == back;
    ClosedAfter(back, "", false);
    assert back + "" == back;
  }

  // ---- Which markers a rule bears ----

  predicate Bears(body: string, pid: U32) {
    Contains(body, Marker(pid))
  }

  lemma {:induction false} DecimalInjective(a: nat, b: nat)
    requires Decimal(a) == Decimal(b)
    ensures a == b
  {
    DecimalReads(a);
    DecimalReads(b);
  }

  lemma MarkerLetters(pid: U32)
    ensures forall c :: c in Marker(pid) ==> c == '-' || 'a' <= c <= 'z' || '0' <= c <= '9'
    ensures Marker(pid)[..|RULE_COMMENT_PREFIX|] == RULE_COMMENT_PREFIX
    ensures Marker(pid)[|Marker(pid)| - 1] == '-' && |Marker(pid)| > |RULE_COMMENT_PREFIX| + 1
  {
    DecimalReads(pid);
  }

  /** A text that begins with one marker begins with another only if they are the same. */
  lemma MarkerFirst(p: U32, q: U32, rest: string)
    requires Marker(q) <= Marker(p) + rest
    ensures p == q
  {
    DecimalReads(p);
    DecimalReads(q);
    var a, b := Decimal(p), Decimal(q);
    var n := |RULE_COMMENT_PREFIX|;
    var text := Marker(p) + rest;
    assert text[n..] == a + ['-'] + rest;
    assert text[n..] == b + ['-'] + text[|Marker(q)|..];
    BeforeFirst(a, '-', rest);
    BeforeFirst(b, '-', text[|Marker(q)|..]);
    DecimalInjective(p, q);
  }

  lemma PrefixLetters(j: nat)
    requires 0 < j < |RULE_COMMENT_PREFIX|
    ensures RULE_COMMENT_PREFIX[j] == 'n' ==> j == 5
    ensures RULE_COMMENT_PREFIX[6] == '-'
  {
    assert RULE_COMMENT_PREFIX[1] == 'e' && RULE_COMMENT_PREFIX[2] == 't' && RULE_COMMENT_PREFIX[3] == 'm';
    assert RULE_COMMENT_PREFIX[4] == 'o' && RULE_COMMENT_PREFIX[6] == '-' && RULE_COMMENT_PREFIX[7] == 'p';
    assert RULE_COMMENT_PREFIX[8] == 'i' && RULE_COMMENT_PREFIX[9] == 'd' && RULE_COMMENT_PREFIX[10] == '-';
  }

  lemma HandleLetters(j: nat)
    requires 0 < j < |HANDLE|
    ensures HANDLE[j] != HANDLE[0]
  {
    assert HANDLE[1] == 'a' && HANDLE[2] == 'n' && HANDLE[3] == 'd' && HANDLE[4] == 'l' && HANDLE[5] == 'e'
        && HANDLE[6] == ' ';
  }

  /** A marker does not overlap with another marker's later part. */
  lemma NoLateStart(p: U32, j: nat)
    requires 0 < j < |Marker(p)|
    ensures Marker(p)[j] != 'n' || (j + 1 < |Marker(p)| && Marker(p)[j + 1] != 'e')
  {
    DecimalReads(p);
    var n := |RULE_COMMENT_PREFIX|;
    if j < n {
      assert Marker(p)[j] == RULE_COMMENT_PREFIX[j];
      PrefixLetters(j);
      assert Marker(p)[6] == RULE_COMMENT_PREFIX[6];
    } else if j < |Marker(p)| - 1 {
      assert Marker(p)[j] == Decimal(p)[j - n];
      assert Decimal(p)[j - n] in Decimal(p);
    } else {
      assert Marker(p)[j] == '-';
    }
  }

  /** Within a comment, a marker stands at the start or inside the name. */
  lemma MarkerInComment(p: U32, q: U32, name: string, i: nat)
    requires StandsAt(Comment(p, name), Marker(q), i)
    ensures (i == 0 && p == q) || (i >= |Marker(p)| && StandsAt(Safe(name), Marker(q), i - |Marker(p)|))
  {
    var text := Comment(p, name);
    assert text[i] == text[i..i + |Marker(q)|][0] == Marker(q)[0] == 'n';
    assert text[i + 1] == text[i..i + |Marker(q)|][1] == Marker(q)[1] == 'e';
    if i == 0 {
      MarkerFirst(p, q, Safe(name));
    } else if i < |Marker(p)| {
      NoLateStart(p, i);
    } else {
      assert Safe(name) == text[|Marker(p)|..];
      assert Safe(name)[i - |Marker(p)|..i - |Marker(p)| + |Marker(q)|] == text[i..i + |Marker(q)|];
    }
  }

  // ---- Markers in rules and in listings ----

  lemma NotAcross(a: string, c: char, b: string, t: string, i: nat)
    requires c !in t && i <= |a| < i + |t| <= |a| + 1 + |b|
    ensures !StandsAt(a + [c] + b, t, i)
  {
    var part := (a + [c] + b)[i..i + |t|];
    assert part[|a| - i] == c;
    assert c in part;
  }

  /** A text without `c` that stands in `a c b` stands in `a` or in `b`. */
  lemma StandsBeside(a: string, c: char, b: string, t: string, i: nat)
    requires c !in t && t != "" && StandsAt(a + [c] + b, t, i)
    ensures StandsAt(a, t, i) || (i > |a| && StandsAt(b, t, i - |a| - 1))
  {
    var s := a + [c] + b;
    if i <= |a| < i + |t| { NotAcross(a, c, b, t, i); }
    if i + |t| <= |a| {
      assert a[i..i + |t|] == s[i..i + |t|];
    } else {
      assert b[i - |a| - 1..i - |a| - 1 + |t|] == s[i..i + |t|];
    }
  }

  lemma ContainsLater(front: string, s: string, t: string)
    requires Contains(s, t)
    ensures Contains(front + s, t)
  {
    var i :| 0 <= i <= |s| && StandsAt(s, t, i);
    var whole := front + s;
    assert whole[|front| + i..|front| + i + |t|] == s[i..i + |t|];
    assert StandsAt(whole, t, |front| + i);
  }

  lemma ContainsEarlier(s: string, back: string, t: string)
    requires Contains(s, t)
    ensures Contains(s + back, t)
  {
    var i :| 0 <= i <= |s| && StandsAt(s, t, i);
    var whole := s + back;
    assert whole[i..i + |t|] == s[i..i + |t|];
    assert StandsAt(whole, t, i);
  }

  lemma ContainsEither(a: string, c: char, b: string, t: string)
    requires c !in t && t != "" && Contains(a + [c] + b, t)
    ensures Contains(a, t) || Contains(b, t)
  {
    var s := a + [c] + b;
    var i :| 0 <= i <= |s| && StandsAt(s, t, i);
    StandsBeside(a, c, b, t, i);
  }

  lemma ContainsBeside(a: string, c: char, b: string, t: string)
    requires c !in t && t != ""
    ensures Contains(a + [c] + b, t) <==> Contains(a, t) || Contains(b, t)
  {
    if Contains(a + [c] + b, t) { ContainsEither(a, c, b, t); }
    if Contains(a, t) {
      ContainsEarlier(a, [c] + b, t);
      assert a + ([c] + b) == a + [c] + b;
    }
    if Contains(b, t) { ContainsLater(a + [c], b, t); }
  }

  lemma NoDashNoMarker(s: string, q: U32)
    requires '-' !in s
    ensures !Contains(s, Marker(q))
  {
    MarkerLetters(q);
    forall i | 0 <= i <= |s| ensures !StandsAt(s, Marker(q), i) {
      if i + |Marker(q)| <= |s| {
        assert s[i..i + |Marker(q)|][|Marker(q)| - 1] == s[i + |Marker(q)| - 1];
      }
    }
  }

  lemma CommentBearsOnly(p: U32, name: string, q: U32)
    requires Contains(Comment(p, name), Marker(q))
    ensures p == q || Contains(Safe(name), Marker(q))
  {
    var i :| 0 <= i <= |Comment(p, name)| && StandsAt(Comment(p, name), Marker(q), i);
    MarkerInComment(p, q, name, i);
  }

  lemma CommentBears(p: U32, name: string, q: U32)
    ensures Contains(Comment(p, name), Marker(q)) <==> p == q || Contains(Safe(name), Marker(q))
  {
    if Contains(Comment(p, name), Marker(q)) { CommentBearsOnly(p, name, q); }
    if p == q { assert StandsAt(Comment(p, name), Marker(q), 0); }
    if Contains(Safe(name), Marker(q)) { ContainsLater(Marker(p), Safe(name), Marker(q)); }
  }

  /** A rule made for one process bears the marker of another exactly when the name of the first
      spells that marker out. */
  lemma QuotedBears(front: string, p: U32, name: string, q: U32)
    requires '-' !in front
    ensures Bears(Quoted(front, Comment(p, name)), q) <==> p == q || Contains(Safe(name), Marker(q))
  {
    MarkerLetters(q);
    var comment := Comment(p, name);
    var back := comment + ['"'] + " drop";
    assert Quoted(front, comment) == front + ['"'] + back;
    ContainsBeside(front, '"', back, Marker(q));
    ContainsBeside(comment, '"', " drop", Marker(q));
    NoDashNoMarker(front, q);
    NoDashNoMarker(" drop", q);
    CommentBears(p, name, q);
  }

  lemma {:induction false} PortLetters(ports: seq<U16>)
    ensures forall c :: c in JoinPorts(ports) ==> '0' <= c <= '9' || c == ',' || c == ' '
    decreases |ports|
  {
    if |ports| > 0 {
      DecimalReads(ports[0]);
      if |ports| > 1 { PortLetters(ports[1..]); }
    }
  }

  // ---- Handles ----

  /** How nft lists a rule when asked for handles. */
  function RuleLine(body: string, handle: U64): string {
    "\t\t" + body + " # " + HANDLE + Decimal(handle)
  }

  /** The handle that a line ends in. */
  function HandleOf(line: string): Option<U64> {
    var idx := RFind(line, HANDLE);
    if idx.None? then None else FromStrRadix(Trim(line[idx.value + |HANDLE|..]), 10, U64_MAX)
  }

  lemma LineBears(body: string, handle: U64, q: U32)
    ensures Contains(RuleLine(body, handle), Marker(q)) <==> Bears(body, q)
  {
    MarkerLetters(q);
    DecimalReads(handle);
    var after := "# " + HANDLE + Decimal(handle);
    var inner := body + [' '] + after;
    assert RuleLine(body, handle) == "" + ['\t'] + ("" + ['\t'] + inner);
    ContainsBeside("", '\t', "" + ['\t'] + inner, Marker(q));
    ContainsBeside("", '\t', inner, Marker(q));
    ContainsBeside(body, ' ', after, Marker(q));
    NoDashNoMarker("", q);
    NoDashNoMarker(after, q);
  }

  lemma {:induction false} NoLaterIndex(s: string, t: string, n: nat, k: nat)
    requires k <= n && n + |t| <= |s| && t != "" && StandsAt(s, t, k)
    requires forall i :: k < i <= n ==> s[i] != t[0]
    ensures LastIndex(s, t, n) == Some(k)
    decreases n
  {
    if k < n {
      assert s[n..n + |t|][0] == s[n];
      NoLaterIndex(s, t, n - 1, k);
    }
  }

  lemma TrimDigits(s: string)
    requires s != "" && forall c :: c in s ==> '0' <= c <= '9'
    ensures Trim(s) == s
  {
    assert s[0] in s && s[|s| - 1] in s;
  }

  /** A text whose first letter occurs nowhere later is found where it stands last. */
  lemma FoundLast(front: string, t: string, back: string)
    requires t != "" && forall j :: 0 < j < |t| ==> t[j] != t[0]
    requires t[0] !in back
    ensures RFind(front + t + back, t) == Some(|front|)
  {
    var line, k := front + t + back, |front|;
    assert line[k..k + |t|] == t;
    forall i | k < i <= |line| - |t| ensures line[i] != t[0] {
      if i < k + |t| { assert line[i] == t[i - k]; } else { assert line[i] == back[i - k - |t|]; }
    }
    NoLaterIndex(line, t, |line| - |t|, k);
  }

  lemma HandleFound(front: string, digits: string)
    requires forall c :: c in digits ==> '0' <= c <= '9'
    ensures RFind(front + HANDLE + digits, HANDLE) == Some(|front|)
  {
    forall j | 0 < j < |HANDLE| ensures HANDLE[j] != HANDLE[0] { HandleLetters(j); }
    assert HANDLE[0] == 'h';
    FoundLast(front, HANDLE, digits);
  }

  /** Whatever stands before it, the handle at the end of a line is the one that is read. */
  lemma HandleAtEnd(front: string, handle: U64)
    ensures HandleOf(front + HANDLE + Decimal(handle)) == Some(handle)
  {
    var digits := Decimal(handle);
    DecimalReads(handle);
    HandleFound(front, digits);
    assert (front + HANDLE + digits)[|front| + |HANDLE|..] == digits;
    TrimDigits(digits);
    DecimalParses(handle, U64_MAX);
  }

  function HandlesOn(line: string, marker: string): seq<U64> {
    if Contains(line, marker) && HandleOf(line).Some? then [HandleOf(line).value] else []
  }

  /** The handles on the lines that contain a marker. */
  function HandlesIn(lines: seq<string>, marker: string): seq<U64>
    decreases |lines|
  {
    if |lines| == 0 then []
    else HandlesIn(lines[..|lines| - 1], marker) + HandlesOn(lines[|lines| - 1], marker)
  }

  method FindHandles(lines: seq<string>, marker: string) returns (handles: seq<U64>)
    ensures handles == HandlesIn(lines, marker)
  {
    handles := [];
    for n := 0 to |lines|
      invariant handles == HandlesIn(lines[..n], marker)
    {
      var line := lines[n];
      assert lines[..n + 1][..n] == lines[..n];
      if !Contains(line, marker) { continue; }
      var idx := RFind(line, HANDLE);
      if idx.Some? {
        var handleTxt := Trim(line[idx.value + |HANDLE|..]);
        var handle := FromStrRadix(handleTxt, 10, U64_MAX);
        if handle.Some? { handles := handles + [handle.value]; }
      }
    }
    assert lines[..|lines|] == lines;
  }
}
