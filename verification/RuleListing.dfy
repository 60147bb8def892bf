/** The listing of the chain as text: how it is cut into lines, and which handles a search of the
    lines for a marker finds of each rule. */
module RuleListing {
  import opened Net
  import opened Text
  import opened RuleText

  // ---- Lines ----

  function StripCr(line: string): string {
    if line != "" && line[|line| - 1] == '\r' then line[..|line| - 1] else line
  }

  /** `str::lines`. */
  function Lines(text: string): seq<string>
    decreases |text|
  {
    if text == "" then []
    else
      var line := Before(text, '\n');
      if |line| >= |text| then [text] else [StripCr(line)] + Lines(text[|line| + 1..])
  }

  lemma FirstLine(a: string, b: string)
    requires '\n' !in a
    ensures Lines(a + ['\n'] + b) == [StripCr(a)] + Lines(b)
  {
    BeforeFirst(a, '\n', b);
    assert (a + ['\n'] + b)[|a| + 1..] == b;
  }

  lemma Regroup(x: string, y: string, z: string)
    ensures (x + ['\n'] + y) + ['\n'] + z == x + ['\n'] + (y + ['\n'] + z)
    ensures (x + ['\n'] + y) + ['\n'] == x + ['\n'] + (y + ['\n'])
  {
  }

  lemma LinesJoinOneLine(a: string, b: string)
    requires '\n' !in a
    ensures Lines(a + ['\n'] + b) == Lines(a + ['\n']) + Lines(b)
  {
    FirstLine(a, b);
    FirstLine(a, "");
    assert a + ['\n'] + "" == a + ['\n'];
  }

  lemma LinesJoinNext(line: string, rest: string, b: string)
    requires '\n' !in line && Lines(rest + ['\n'] + b) == Lines(rest + ['\n']) + Lines(b)
    ensures Lines((line + ['\n'] + rest) + ['\n'] + b) == Lines((line + ['\n'] + rest) + ['\n']) + Lines(b)
  {
    Regroup(line, rest, b);
    FirstLine(line, rest + ['\n'] + b);
    FirstLine(line, rest + ['\n']);
  }

  lemma {:induction false} LinesJoin(a: string, b: string)
    ensures Lines(a + ['\n'] + b) == Lines(a + ['\n']) + Lines(b)
    decreases |a|
  {
    BeforeSplits(a, '\n');
    if '\n' !in a {
      LinesJoinOneLine(a, b);
    } else {
      var line := Before(a, '\n');
      var rest := a[|line| + 1..];
      LinesJoin(rest, b);
      LinesJoinNext(line, rest, b);
    }
  }

  // ---- Searching a text line by line ----

  /** The handles on the lines of a text that contain a marker. */
  function Scan(text: string, marker: string): seq<U64> {
    HandlesIn(Lines(text), marker)
  }

  lemma HandlesInStep(front: seq<string>, last: string, marker: string)
    ensures HandlesIn(front + [last], marker) == HandlesIn(front, marker) + HandlesOn(last, marker)
  {
    assert (front + [last])[..|front|] == front;
  }

  lemma {:induction false} HandlesInConcat(a: seq<string>, b: seq<string>, marker: string)
    ensures HandlesIn(a + b, marker) == HandlesIn(a, marker) + HandlesIn(b, marker)
    decreases |b|
  {
    if |b| == 0 {
      assert a + b == a;
    } else {
      var front, last := b[..|b| - 1], b[|b| - 1];
      assert b == front + [last];
      calc {
        HandlesIn(a + b, marker);
        { assert a + b == (a + front) + [last]; }
        HandlesIn((a + front) + [last], marker);
        { HandlesInStep(a + front, last, marker); }
        HandlesIn(a + front, marker) + HandlesOn(last, marker);
        { HandlesInConcat(a, front, marker); }
        HandlesIn(a, marker) + HandlesIn(front, marker) + HandlesOn(last, marker);
        { HandlesInStep(front, last, marker); }
        HandlesIn(a, marker) + HandlesIn(b, marker);
      }
    }
  }

  lemma ScanJoin(a: string, b: string, marker: string)
    ensures Scan(a + ['\n'] + b, marker) == Scan(a + ['\n'], marker) + Scan(b, marker)
  {
    LinesJoin(a, b);
    HandlesInConcat(Lines(a + ['\n']), Lines(b), marker);
  }

  lemma ScanLine(a: string, marker: string)
    requires '\n' !in a
    ensures Scan(a + ['\n'], marker) == HandlesOn(StripCr(a), marker)
  {
    FirstLine(a, "");
    assert a + ['\n'] + "" == a + ['\n'];
    HandlesInStep([], StripCr(a), marker);
    assert [] + [StripCr(a)] == [StripCr(a)] + [];
  }

  /** A marker that a text does not contain is on none of its lines. */
  lemma {:induction false} NothingToFind(text: string, marker: string)
    requires !Contains(text, marker)
    ensures Scan(text, marker) == []
    decreases |text|
  {
    if text != "" {
      BeforeSplits(text, '\n');
      var line := Before(text, '\n');
      if '\n' !in text {
        HandlesInStep([], text, marker);
        assert [] + [text] == [text];
      } else {
        var rest := text[|line| + 1..];
        PartsDoNotContain(line, rest, marker);
        NothingToFind(rest, marker);
        ScanJoin(line, rest, marker);
        ScanLine(line, marker);
      }
    }
  }

  lemma PartsDoNotContain(line: string, rest: string, t: string)
    requires !Contains(line + ['\n'] + rest, t)
    ensures !Contains(StripCr(line), t) && !Contains(rest, t)
  {
    if Contains(rest, t) { ContainsLater(line + ['\n'], rest, t); }
    var back := line[|StripCr(line)|..] + ['\n'] + rest;
    assert StripCr(line) + back == line + ['\n'] + rest;
    if Contains(StripCr(line), t) { ContainsEarlier(StripCr(line), back, t); }
  }

  // ---- The parts of a comment ----

  /** What stands after the last line break. */
  function LastPart(s: string): string
    decreases |s|
  {
    if s == "" || s[|s| - 1] == '\n' then "" else LastPart(s[..|s| - 1]) + [s[|s| - 1]]
  }

  lemma {:induction false} LastPartEnds(s: string)
    ensures |LastPart(s)| <= |s| && s[|s| - |LastPart(s)|..] == LastPart(s) && '\n' !in LastPart(s)
    ensures '\n' !in s ==> LastPart(s) == s
    ensures |LastPart(s)| < |s| ==> s[|s| - |LastPart(s)| - 1] == '\n'
    decreases |s|
  {
    if s != "" && s[|s| - 1] != '\n' {
      var front, c := s[..|s| - 1], s[|s| - 1];
      LastPartEnds(front);
      var last := LastPart(front);
      assert s == front + [c] && LastPart(s) == last + [c];
      assert s[|s| - |LastPart(s)|..] == front[|front| - |last|..] + [c];
    }
  }

  /** What stands up to the last line break, which is included. */
  function EarlierParts(s: string): string {
    LastPartEnds(s);
    s[..|s| - |LastPart(s)|]
  }

  // ---- What the search finds of one rule ----

  function FoundIn(body: string, handle: U64, pid: U32): seq<U64> {
    Scan(RuleLine(body, handle) + ['\n'], Marker(pid))
  }

  /** A rule that does not bear a marker is not found by it, over however many lines it runs. */
  lemma NotFoundIn(body: string, handle: U64, pid: U32)
    requires !Bears(body, pid)
    ensures FoundIn(body, handle, pid) == []
  {
    LineBears(body, handle, pid);
    MarkerLetters(pid);
    var line := RuleLine(body, handle);
    ContainsBeside(line, '\n', "", Marker(pid));
    NoDashNoMarker("", pid);
    assert line + ['\n'] + "" == line + ['\n'];
    NothingToFind(line + ['\n'], Marker(pid));
  }

  /** What stands in a rule before its comment: no letter of it begins a handle or a marker. */
  predicate Plain(front: string) {
    '-' !in front && '"' !in front && '\n' !in front && 'h' !in front
  }

  function Opening(front: string): string {
    "\t\t" + front + ['"']
  }

  function Ending(handle: U64): string {
    ['"'] + " drop # " + HANDLE + Decimal(handle)
  }

  lemma RuleLineParts(front: string, comment: string, handle: U64)
    ensures RuleLine(Quoted(front, comment), handle) == Opening(front) + comment + Ending(handle)
  {
  }

  lemma EndingLetters(handle: U64)
    ensures '\n' !in Ending(handle) && '-' !in Ending(handle)
    ensures forall x: string :: StripCr(x + Ending(handle)) == x + Ending(handle)
  {
    DecimalReads(handle);
    var e := Ending(handle);
    assert e[|e| - 1] == Decimal(handle)[|Decimal(handle)| - 1];
    assert e[|e| - 1] in Decimal(handle);
    forall x: string ensures StripCr(x + e) == x + e {
      assert (x + e)[|x + e| - 1] == e[|e| - 1];
    }
  }

  lemma EndBears(x: string, handle: U64, q: U32)
    ensures Contains(x + Ending(handle), Marker(q)) <==> Contains(x, Marker(q))
  {
    var back := " drop # " + HANDLE + Decimal(handle);
    MarkerLetters(q);
    EndingLetters(handle);
    assert Ending(handle) == ['"'] + back && x + Ending(handle) == x + ['"'] + back;
    assert forall c :: c in back ==> c in Ending(handle);
    NoDashNoMarker(back, q);
    ContainsBeside(x, '"', back, Marker(q));
  }

  lemma EndReads(x: string, handle: U64)
    ensures HandleOf(x + Ending(handle)) == Some(handle)
  {
    HandleAtEnd(x + (['"'] + " drop # "), handle);
    Regrouped(x, ['"'] + " drop # ", HANDLE, Decimal(handle));
  }

  lemma Regrouped(a: string, b: string, c: string, d: string)
    ensures (a + b) + c + d == a + (b + c + d)
  {
  }

  /** The line in which a rule ends is found if its part of the comment bears the marker. */
  lemma EndFound(x: string, handle: U64, q: U32)
    requires '\n' !in x
    ensures Scan(x + Ending(handle) + ['\n'], Marker(q)) == if Contains(x, Marker(q)) then [handle] else []
  {
    EndingLetters(handle);
    ScanLine(x + Ending(handle), Marker(q));
    EndBears(x, handle, q);
    EndReads(x, handle);
  }

  lemma OpeningBears(front: string, x: string, q: U32)
    requires Plain(front)
    ensures Contains(Opening(front) + x, Marker(q)) <==> Contains(x, Marker(q))
  {
    MarkerLetters(q);
    ContainsBeside("\t\t" + front, '"', x, Marker(q));
    assert '-' !in "\t\t" + front;
    NoDashNoMarker("\t\t" + front, q);
  }

  /** `r` is the last place up to `n` at which `t` stands. */
  ghost predicate IsLast(s: string, t: string, n: nat, r: Option<nat>) {
    && (r.Some? ==> r.value <= n && StandsAt(s, t, r.value))
    && forall i :: (if r.Some? then r.value else -1) < i <= n ==> !StandsAt(s, t, i)
  }

  lemma {:induction false} LastIndexIsLast(s: string, t: string, n: nat)
    requires n + |t| <= |s|
    ensures IsLast(s, t, n, LastIndex(s, t, n))
  {
    if !StandsAt(s, t, n) && n > 0 { LastIndexIsLast(s, t, n - 1); }
  }

  lemma SameLast(s: string, t: string, n: nat, a: Option<nat>, b: Option<nat>)
    requires IsLast(s, t, n, a) && IsLast(s, t, n, b)
    ensures a == b
  {
  }

  lemma StandsShifted(front: string, x: string, t: string, i: nat)
    ensures StandsAt(front + x, t, |front| + i) <==> StandsAt(x, t, i)
  {
    if i + |t| <= |x| { assert (front + x)[|front| + i..|front| + i + |t|] == x[i..i + |t|]; }
  }

  lemma NotInFront(front: string, x: string, t: string, i: nat)
    requires t != "" && t[0] !in front && i < |front|
    ensures !StandsAt(front + x, t, i)
  {
    if i + |t| <= |front + x| { assert (front + x)[i..i + |t|][0] == front[i]; }
  }

  function Shifted(r: Option<nat>, n: nat): Option<nat> {
    if r.None? then None else Some(n + r.value)
  }

  lemma LastShifted(front: string, x: string, t: string, n: nat, r: Option<nat>)
    requires t != "" && t[0] !in front && IsLast(x, t, n, r)
    ensures IsLast(front + x, t, |front| + n, Shifted(r, |front|))
  {
    var k := Shifted(r, |front|);
    if r.Some? { StandsShifted(front, x, t, r.value); }
    forall i | (if k.Some? then k.value else -1) < i <= |front| + n ensures !StandsAt(front + x, t, i) {
      if i < |front| { NotInFront(front, x, t, i); } else { StandsShifted(front, x, t, i - |front|); }
    }
  }

  lemma RFindIsLast(s: string, t: string)
    requires |s| >= |t|
    ensures IsLast(s, t, |s| - |t|, RFind(s, t))
  {
    LastIndexIsLast(s, t, |s| - |t|);
  }

  lemma TooShort(front: string, x: string, t: string)
    requires |x| < |t| && t[0] !in front
    ensures RFind(front + x, t) == None
  {
    var s := front + x;
    if |s| >= |t| {
      RFindIsLast(s, t);
      if RFind(s, t).Some? { NotInFront(front, x, t, RFind(s, t).value); }
    }
  }

  lemma RFindShifts(front: string, x: string, t: string)
    requires t != "" && t[0] !in front
    ensures RFind(front + x, t) == Shifted(RFind(x, t), |front|)
  {
    if |x| < |t| {
      TooShort(front, x, t);
    } else {
      RFindIsLast(x, t);
      RFindIsLast(front + x, t);
      LastShifted(front, x, t, |x| - |t|, RFind(x, t));
      SameLast(front + x, t, |front + x| - |t|, RFind(front + x, t), Shifted(RFind(x, t), |front|));
    }
  }

  /** Text without an h in front changes nothing of the handle that is read. */
  lemma FrontKeepsHandle(front: string, x: string)
    requires 'h' !in front
    ensures HandleOf(front + x) == HandleOf(x)
  {
    assert HANDLE[0] == 'h';
    RFindShifts(front, x, HANDLE);
    var k := RFind(x, HANDLE);
    if k.Some? { assert (front + x)[|front| + k.value + |HANDLE|..] == x[k.value + |HANDLE|..]; }
  }

  lemma OpeningOnLine(front: string, x: string, q: U32)
    requires Plain(front)
    ensures HandlesOn(Opening(front) + x, Marker(q)) == HandlesOn(x, Marker(q))
  {
    assert 'h' !in Opening(front);
    OpeningBears(front, x, q);
    FrontKeepsHandle(Opening(front), x);
  }

  lemma StripKeepsFront(front: string, x: string)
    requires x != ""
    ensures StripCr(front + x) == front + StripCr(x)
  {
  }

  lemma OpeningScans(front: string, x: string, q: U32)
    requires Plain(front) && x != "" && '\n' !in x
    ensures Scan(Opening(front) + x + ['\n'], Marker(q)) == Scan(x + ['\n'], Marker(q))
  {
    assert '\n' !in Opening(front);
    ScanLine(Opening(front) + x, Marker(q));
    ScanLine(x, Marker(q));
    StripKeepsFront(Opening(front), x);
    OpeningOnLine(front, StripCr(x), q);
  }

  /** What stands before a comment adds nothing to what is found on the comment's earlier lines. */
  lemma OpeningAddsNothing(front: string, e: string, q: U32)
    requires Plain(front) && e != "" && e[0] != '\n'
    ensures Scan(Opening(front) + e + ['\n'], Marker(q)) == Scan(e + ['\n'], Marker(q))
  {
    BeforeSplits(e, '\n');
    if '\n' !in e {
      OpeningScans(front, e, q);
    } else {
      OpeningBeforeLines(front, Before(e, '\n'), e[|Before(e, '\n')| + 1..], q);
    }
  }

  lemma OpeningBeforeLines(front: string, line: string, rest: string, q: U32)
    requires Plain(front) && line != "" && '\n' !in line
    ensures Scan(Opening(front) + (line + ['\n'] + rest) + ['\n'], Marker(q))
         == Scan((line + ['\n'] + rest) + ['\n'], Marker(q))
  {
    var o := Opening(front);
    assert o + (line + ['\n'] + rest) == (o + line) + ['\n'] + rest;
    Regroup(o + line, rest, "");
    Regroup(line, rest, "");
    ScanJoin(o + line, rest + ['\n'], Marker(q));
    ScanJoin(line, rest + ['\n'], Marker(q));
    OpeningScans(front, line, q);
  }

  /** What a search for the marker of `q` finds of a rule made for `p` under a name: the handles that
      earlier lines of the comment read as, and the rule's own if the last line bears the marker. */
  function ShownAs(p: U32, name: string, handle: U64, q: U32): seq<U64> {
    var comment := Comment(p, name);
    Scan(EarlierParts(comment), Marker(q)) + if Contains(LastPart(comment), Marker(q)) then [handle] else []
  }

  lemma OneLineShown(front: string, p: U32, name: string, handle: U64, q: U32)
    requires Plain(front) && EarlierParts(Comment(p, name)) == ""
    ensures FoundIn(Quoted(front, Comment(p, name)), handle, q) == ShownAs(p, name, handle, q)
  {
    var comment := Comment(p, name);
    LastPartEnds(comment);
    assert LastPart(comment) == comment;
    RuleLineParts(front, comment, handle);
    assert '\n' !in Opening(front) + comment;
    EndFound(Opening(front) + comment, handle, q);
    OpeningBears(front, comment, q);
    assert Lines("") == [] && Scan("", Marker(q)) == [];
  }

  lemma CutAtBreak(c: string)
    requires EarlierParts(c) != ""
    ensures var e := EarlierParts(c); e == e[..|e| - 1] + ['\n'] && c == e + LastPart(c)
  {
    LastPartEnds(c);
  }

  /** A comment of several lines, cut before its last line break. */
  lemma CommentCut(p: U32, name: string)
    requires EarlierParts(Comment(p, name)) != ""
    ensures var c := Comment(p, name); var e := EarlierParts(c); var cut := e[..|e| - 1];
            e == cut + ['\n'] && c == cut + ['\n'] + LastPart(c) && cut != "" && cut[0] != '\n'
    ensures '\n' !in LastPart(Comment(p, name))
  {
    var c := Comment(p, name);
    CutAtBreak(c);
    LastPartEnds(c);
    CommentStarts(p, name);
    assert EarlierParts(c)[0] == c[0];
  }

  lemma ManyLinesShown(front: string, p: U32, name: string, handle: U64, q: U32)
    requires Plain(front) && EarlierParts(Comment(p, name)) != ""
    ensures FoundIn(Quoted(front, Comment(p, name)), handle, q) == ShownAs(p, name, handle, q)
  {
    var comment := Comment(p, name);
    var e, last := EarlierParts(comment), LastPart(comment);
    var cut := e[..|e| - 1];
    CommentCut(p, name);
    RuleLineParts(front, comment, handle);
    PartsScanned(Opening(front), cut, last, Ending(handle), Marker(q));
    OpeningAddsNothing(front, cut, q);
    EndFound(last, handle, q);
  }

  lemma PartsRegrouped(o: string, cut: string, last: string, end: string)
    ensures o + (cut + ['\n'] + last) + end + ['\n'] == (o + cut) + ['\n'] + (last + end + ['\n'])
  {
  }

  lemma PartsScanned(o: string, cut: string, last: string, end: string, marker: string)
    ensures Scan(o + (cut + ['\n'] + last) + end + ['\n'], marker)
         == Scan(o + cut + ['\n'], marker) + Scan(last + end + ['\n'], marker)
  {
    PartsRegrouped(o, cut, last, end);
    ScanJoin(o + cut, last + end + ['\n'], marker);
  }

  lemma CommentStarts(p: U32, name: string)
    ensures |Comment(p, name)| > 1 && Comment(p, name)[0] == 'n' && Comment(p, name)[1] == 'e'
  {
    MarkerLetters(p);
    assert Comment(p, name)[0] == Marker(p)[0] == RULE_COMMENT_PREFIX[0];
    assert Comment(p, name)[1] == Marker(p)[1] == RULE_COMMENT_PREFIX[1];
  }

  lemma RuleIsShown(front: string, p: U32, name: string, handle: U64, q: U32)
    requires Plain(front)
    ensures FoundIn(Quoted(front, Comment(p, name)), handle, q) == ShownAs(p, name, handle, q)
  {
    if EarlierParts(Comment(p, name)) == "" {
      OneLineShown(front, p, name, handle, q);
    } else {
      ManyLinesShown(front, p, name, handle, q);
    }
  }

  // ---- Names ----

  /** A rule made under the name is found by its own marker as itself. */
  ghost predicate FoundAsItself(p: U32, name: string) {
    forall handle: U64 :: ShownAs(p, name, handle, p) == [handle]
  }

  /** This is so exactly when the last line of the comment bears the marker and no earlier one reads
      as a handle; in particular without a line break. */
  lemma FoundAsItselfExactly(p: U32, name: string)
    ensures FoundAsItself(p, name)
       <==> (var c := Comment(p, name);
             Contains(LastPart(c), Marker(p)) && Scan(EarlierParts(c), Marker(p)) == [])
    ensures '\n' !in name ==> FoundAsItself(p, name)
  {
    var c := Comment(p, name);
    var e := Scan(EarlierParts(c), Marker(p));
    if FoundAsItself(p, name) {
      assert ShownAs(p, name, 0, p)[0] == 0 && ShownAs(p, name, 1, p)[0] == 1;
      if Contains(LastPart(c), Marker(p)) { assert |e + [0]| == 1; }
    }
    if '\n' !in name {
      OneLineComment(p, name);
      CommentBears(p, name, p);
    }
  }

  lemma OneLineComment(p: U32, name: string)
    requires '\n' !in name
    ensures EarlierParts(Comment(p, name)) == "" && LastPart(Comment(p, name)) == Comment(p, name)
    ensures forall q: U32 :: Scan(EarlierParts(Comment(p, name)), Marker(q)) == []
  {
    SafeOneLine(name);
    MarkerLetters(p);
    LastPartEnds(Comment(p, name));
    assert Lines("") == [];
  }

  lemma {:induction false} SafeOneLine(name: string)
    requires '\n' !in name
    ensures '\n' !in Safe(name)
    decreases |name|
  {
    if name != "" { SafeOneLine(name[1..]); }
  }

  /** Nothing but its own handle is ever found of a rule made under the name, and that by its own
      marker at least. */
  ghost predicate Legible(p: U32, name: string) {
    var c := Comment(p, name);
    Contains(LastPart(c), Marker(p)) && forall q: U32 :: Scan(EarlierParts(c), Marker(q)) == []
  }

  /** Besides, no other process's marker finds it. */
  ghost predicate NameOk(p: U32, name: string) {
    Legible(p, name) && forall q: U32 :: q != p ==> !Contains(LastPart(Comment(p, name)), Marker(q))
  }

  /** For a name of one line, all that is asked is that it spells out no other process's marker. */
  lemma OneLineName(p: U32, name: string)
    requires '\n' !in name
    ensures Legible(p, name)
    ensures NameOk(p, name) <==> forall q: U32 :: q != p ==> !Contains(Safe(name), Marker(q))
  {
    OneLineComment(p, name);
    CommentBears(p, name, p);
    forall q: U32 ensures Contains(Comment(p, name), Marker(q)) <==> p == q || Contains(Safe(name), Marker(q)) {
      CommentBears(p, name, q);
    }
  }

  // ---- The rules of one process ----

  ghost predicate Shows(body: string, p: U32, name: string) {
    forall handle: U64, q: U32 :: FoundIn(body, handle, q) == ShownAs(p, name, handle, q)
  }

  lemma QuotedShows(front: string, p: U32, name: string)
    requires Plain(front)
    ensures Shows(Quoted(front, Comment(p, name)), p, name)
  {
    forall handle: U64, q: U32
      ensures FoundIn(Quoted(front, Comment(p, name)), handle, q) == ShownAs(p, name, handle, q)
    {
      RuleIsShown(front, p, name, handle, q);
    }
  }

  lemma PortBodyShows(transport: string, ports: seq<U16>, p: U32, name: string)
    requires Plain(transport)
    ensures Shows(PortBody(transport, ports, Comment(p, name)), p, name)
  {
    PortLetters(ports);
    var front := transport + " sport { " + JoinPorts(ports) + " } comment ";
    assert Plain(front);
    QuotedShows(front, p, name);
  }

  lemma UserBodyShows(uid: U32, p: U32, name: string)
    ensures Shows(UserBody(uid, Comment(p, name)), p, name)
  {
    DecimalReads(uid);
    var front := "meta skuid " + Decimal(uid) + " comment ";
    assert Plain(front);
    QuotedShows(front, p, name);
  }

  lemma BlockBodiesShow(tcp: seq<U16>, udp: seq<U16>, p: U32, name: string)
    ensures forall b :: b in BlockBodies(tcp, udp, Comment(p, name)) ==> Shows(b, p, name)
  {
    PortBodyShows("tcp", tcp, p, name);
    PortBodyShows("udp", udp, p, name);
  }
}
