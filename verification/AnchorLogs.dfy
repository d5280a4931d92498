/** Attributing Anchor event payloads to programs from a transaction's log lines. */
module AnchorLogs {
  import opened Common
  import Filters

  predicate IsSpace(c: char) {
    c == ' ' || c == '\t' || c == '\n' || c == '\r' || c == '\U{B}' || c == '\U{C}'
  }

  predicate IsDigit(c: char) {
    '0' <= c <= '9'
  }

  // The index of the first blank from i on, or the length.
  function FirstSpace(s: string, i: nat): (k: nat)
    requires i <= |s|
    ensures i <= k <= |s| && forall j :: i <= j < k ==> !IsSpace(s[j])
    ensures k < |s| ==> IsSpace(s[k])
    decreases |s| - i
  {
    if i == |s| || IsSpace(s[i]) then i else FirstSpace(s, i + 1)
  }

  const PROGRAM := "Program "
  const INVOKE := " invoke ["
  const SUCCESS := " success"
  const DATA := "Program data: "

  // " invoke [" digits "]"
  predicate IsInvokeTail(s: string) {
    && |s| > |INVOKE| + 1 && StartsWith(s, INVOKE) && s[|s| - 1] == ']'
    && forall i :: |INVOKE| <= i < |s| - 1 ==> IsDigit(s[i])
  }

  // ^Program (\S+) invoke \[\d+\]$
  function MatchInvoke(line: string): Option<string> {
    if !StartsWith(line, PROGRAM) then None
    else
      var k := FirstSpace(line, |PROGRAM|);
      if k > |PROGRAM| && IsInvokeTail(line[k..]) then Some(line[|PROGRAM|..k]) else None
  }

  datatype Line = Invoke(program: string) | Success | Payload(b64: string) | Other

  // The tests in the order the parser makes them.
  function Classify(line: string): Line {
    var m := MatchInvoke(line);
    if m.Some? then Invoke(m.value)
    else if StartsWith(line, PROGRAM) && EndsWith(line, SUCCESS) then Success
    else if StartsWith(line, DATA) then Payload(line[|DATA|..])
    else Other
  }

  type Attributed = (string, string)   // (program, payload)

  // What is extracted from the rest of the lines, given the program stack.
  function Extract(lines: seq<string>, stack: seq<string>): seq<Attributed> {
    if lines == [] then []
    else match Classify(lines[0])
      case Invoke(p) => Extract(lines[1..], stack + [p])
      case Success => Extract(lines[1..], if stack == [] then stack else stack[..|stack| - 1])
      case Payload(b) => (if stack == [] then [] else [(stack[|stack| - 1], b)]) + Extract(lines[1..], stack)
      case Other => Extract(lines[1..], stack)
  }

  method ExtractPayloads(lines: seq<string>) returns (found: seq<Attributed>)
    ensures found == Extract(lines, [])
  {
    hide Classify, MatchInvoke;
    var programStack: seq<string> := [];
    found := [];
    for i := 0 to |lines|
      invariant found + Extract(lines[i..], programStack) == Extract(lines, [])
    {
      assert lines[i..][1..] == lines[i + 1..];
      match Classify(lines[i]) {
        case Invoke(p) => programStack := programStack + [p];
        case Success =>
          if programStack != [] {
            programStack := programStack[..|programStack| - 1];
          }
        case Payload(b) =>
          if programStack != [] {
            var hit := (programStack[|programStack| - 1], b);
            ConcatAssociates(found, [hit], Extract(lines[i + 1..], programStack));
            found := found + [hit];
          }
        case Other =>
      }
    }
  }

  // ----- The printer: what the runtime logs for successful invocations -----

  // The body of an invocation, item by item; `level` is the printed depth.
  datatype Trace =
    | End
    | Emit(b64: string, rest: Trace)
    | Filler(line: string, rest: Trace)
    | Call(program: string, level: string, inner: Trace, rest: Trace)

  function InvokeLine(program: string, level: string): string {
    PROGRAM + program + INVOKE + level + "]"
  }

  function Print(t: Trace): seq<string> {
    match t
    case End => []
    case Emit(b, rest) => [DATA + b] + Print(rest)
    case Filler(line, rest) => [line] + Print(rest)
    case Call(p, level, inner, rest) =>
      [InvokeLine(p, level)] + Print(inner) + [PROGRAM + p + SUCCESS] + Print(rest)
  }

  // The payloads with the programs that emitted them, in order; nothing is
  // attributed outside every invocation.
  function Emitted(t: Trace, owner: Option<string>): seq<Attributed> {
    match t
    case End => []
    case Emit(b, rest) => (if owner.Some? then [(owner.value, b)] else []) + Emitted(rest, owner)
    case Filler(_, rest) => Emitted(rest, owner)
    case Call(p, _, inner, rest) => Emitted(inner, Some(p)) + Emitted(rest, owner)
  }

  predicate IsBase64Char(c: char) {
    'A' <= c <= 'Z' || 'a' <= c <= 'z' || '0' <= c <= '9' || c == '+' || c == '/' || c == '='
  }

  predicate IsBase64(s: string) {
    |s| % 4 == 0 && forall i :: 0 <= i < |s| ==> IsBase64Char(s[i])
  }

  predicate IsProgramId(s: string) {
    s != [] && forall i :: 0 <= i < |s| ==> !IsSpace(s[i])
  }

  predicate IsLevel(s: string) {
    s != [] && forall i :: 0 <= i < |s| ==> IsDigit(s[i])
  }

  predicate WellFormed(t: Trace) {
    match t
    case End => true
    case Emit(b, rest) => IsBase64(b) && WellFormed(rest)
    case Filler(line, rest) => Classify(line) == Other && WellFormed(rest)
    case Call(p, level, inner, rest) => IsProgramId(p) && IsLevel(level) && WellFormed(inner) && WellFormed(rest)
  }

  // ----- Printed lines are read back as what they are -----

  lemma ProgramEnds(line: string, p: string, tail: string)
    requires IsProgramId(p) && line == PROGRAM + p + tail && tail != [] && IsSpace(tail[0])
    ensures FirstSpace(line, |PROGRAM|) == |PROGRAM| + |p|
    ensures StartsWith(line, PROGRAM) && line[|PROGRAM| + |p|..] == tail && line[|PROGRAM|..|PROGRAM| + |p|] == p
  {
    var k := FirstSpace(line, |PROGRAM|);
    assert line[|PROGRAM| + |p|] == tail[0];
    assert forall i :: 0 <= i < |p| ==> line[|PROGRAM| + i] == p[i];
  }

  lemma InvokeIsRead(p: string, level: string)
    requires IsProgramId(p) && IsLevel(level)
    ensures Classify(InvokeLine(p, level)) == Invoke(p)
  {
    var tail := INVOKE + level + "]";
    assert InvokeLine(p, level) == PROGRAM + p + tail;
    ProgramEnds(InvokeLine(p, level), p, tail);
    forall i | |INVOKE| <= i < |tail| - 1 ensures IsDigit(tail[i]) {
      assert tail[i] == level[i - |INVOKE|];
    }
    assert IsInvokeTail(tail);
  }

  // The depth of an invocation is printed in decimal.
  lemma DepthIsLevel(depth: nat)
    ensures IsLevel(Filters.Dec(depth))
  {
    Filters.DecIsDigits(depth);
  }

  lemma SuccessIsRead(p: string)
    requires IsProgramId(p)
    ensures Classify(PROGRAM + p + SUCCESS) == Success
  {
    var line := PROGRAM + p + SUCCESS;
    ProgramEnds(line, p, SUCCESS);
    assert SUCCESS[1] != INVOKE[1];
    assert !StartsWith(SUCCESS, INVOKE);
    assert line[|line| - |SUCCESS|..] == SUCCESS;
  }

  // A base64 payload can be taken neither for an invoke nor for a success line;
  // the length matters: "Program data: success" would be a success line.
  lemma PayloadIsRead(b: string)
    requires IsBase64(b)
    ensures Classify(DATA + b) == Payload(b)
  {
    var line := DATA + b;
    var tail := " " + b;
    hide EndsWith, IsInvokeTail;
    assert line == PROGRAM + "data:" + tail;
    ProgramEnds(line, "data:", tail);
    NotInvokeTail(b);
    NotSuccess(b);
  }

  lemma NotInvokeTail(b: string)
    requires IsBase64(b)
    ensures !IsInvokeTail(" " + b)
  {
    var tail := " " + b;
    if |tail| > 10 {
      assert tail[8] == b[7] && INVOKE[8] == '[';
    }
  }

  lemma NotSuccess(b: string)
    requires IsBase64(b)
    ensures !EndsWith(DATA + b, SUCCESS)
  {
    var line := DATA + b;
    var at := |line| - |SUCCESS|;
    BlankOfData(b, at);
    assert line[at..][0] == line[at] && SUCCESS[0] == ' ';
  }

  lemma BlankOfData(b: string, at: int)
    requires IsBase64(b) && at == |DATA + b| - |SUCCESS|
    ensures (DATA + b)[at] != ' '
  {
    if at >= |DATA| {
      assert (DATA + b)[at] == b[at - |DATA|];
    } else {
      assert |b| == 0 || |b| == 4;
      assert (DATA + b)[at] == DATA[at];
      assert DATA[6] == 'm' && DATA[10] == 't';
    }
  }

  // ----- How any other line is read -----

  const INVOKED := "invoke ["

  // "invoke [" digits "]"
  ghost predicate IsInvocation(text: string) {
    exists level :: IsLevel(level) && text == INVOKED + level + "]"
  }

  predicate IsSuccess(text: string) {
    text == "success" || EndsWith(text, SUCCESS)
  }

  lemma PrefixTail(c: string, a: string, b: string)
    requires |c| == 1 && c + a <= c + b
    ensures a <= b
  {
    assert |a| <= |b|;
    forall i | 0 <= i < |a| ensures a[i] == b[i] {
      assert (c + a)[i + 1] == (c + b)[i + 1];
    }
  }

  lemma TailHasLevel(text: string)
    requires IsInvokeTail(" " + text)
    ensures |text| > |INVOKED| && text == INVOKED + text[|INVOKED|..|text| - 1] + "]"
    ensures IsLevel(text[|INVOKED|..|text| - 1])
  {
    var tail, level := " " + text, text[|INVOKED|..|text| - 1];
    assert INVOKE == " " + INVOKED;
    PrefixTail(" ", INVOKED, text);
    assert text[..|INVOKED|] == INVOKED;
    assert text[|text| - 1] == tail[|tail| - 1] == ']';
    assert text == INVOKED + level + [text[|text| - 1]];
    forall i | 0 <= i < |level| ensures IsDigit(level[i]) {
      assert level[i] == tail[|INVOKE| + i];
    }
  }

  lemma LevelIsTail(level: string)
    requires IsLevel(level)
    ensures IsInvokeTail(" " + (INVOKED + level + "]"))
  {
    var tail := INVOKE + level + "]";
    assert " " + (INVOKED + level + "]") == tail;
    assert forall i :: |INVOKE| <= i < |tail| - 1 ==> tail[i] == level[i - |INVOKE|];
  }

  lemma InvokeTailMeaning(text: string)
    ensures IsInvokeTail(" " + text) <==> IsInvocation(text)
  {
    hide IsInvokeTail, IsLevel;
    if IsInvokeTail(" " + text) {
      TailHasLevel(text);
    }
    forall level | IsLevel(level) && text == INVOKED + level + "]" ensures IsInvokeTail(" " + text) {
      LevelIsTail(level);
    }
  }

  lemma SuccessMeaning(p: string, text: string)
    ensures EndsWith(PROGRAM + p + (" " + text), SUCCESS) <==> IsSuccess(text)
  {
    var line := PROGRAM + p + (" " + text);
    if |text| >= |SUCCESS| {
      assert line[|line| - |SUCCESS|..] == text[|text| - |SUCCESS|..];
    } else if |text| == |SUCCESS| - 1 {
      assert line[|line| - |SUCCESS|..] == " " + text;
      assert SUCCESS == " " + "success";
      assert (" " + text)[1..] == text;
    } else {
      assert line[|line| - 1 - |text|] == ' ';
      assert line[|line| - |SUCCESS|..][|SUCCESS| - 1 - |text|] == ' ';
      assert forall i :: 0 < i < |SUCCESS| ==> SUCCESS[i] != ' ';
    }
  }

  // "Program ", a word and a text: an invocation when the text is "invoke [n]"; else a
  // success when its last word is "success"; else a payload when the word is "data:";
  // and else nothing. So a program's own "log:" lines are read as an invocation or a
  // success when their text is.
  lemma ProgramLineIsRead(p: string, text: string)
    requires IsProgramId(p)
    ensures Classify(PROGRAM + p + (" " + text)) ==
            if IsInvocation(text) then Invoke(p)
            else if IsSuccess(text) then Success
            else if p == "data:" then Payload(text)
            else Other
  {
    hide IsInvokeTail, EndsWith, IsInvocation, IsSuccess;
    var line := PROGRAM + p + (" " + text);
    ProgramEnds(line, p, " " + text);
    InvokeTailMeaning(text);
    SuccessMeaning(p, text);
    DataMeaning(p, text);
  }

  lemma DataMeaning(p: string, text: string)
    requires IsProgramId(p)
    ensures StartsWith(PROGRAM + p + (" " + text), DATA) <==> p == "data:"
    ensures p == "data:" ==> (PROGRAM + p + (" " + text))[|DATA|..] == text
  {
    var line := PROGRAM + p + (" " + text);
    if StartsWith(line, DATA) {
      assert line == PROGRAM + "data:" + line[13..];
      ProgramEnds(line, p, " " + text);
      ProgramEnds(line, "data:", line[13..]);
    }
    if p == "data:" {
      assert line == DATA + text;
    }
  }

  // Without a word after "Program " there is no invocation, and no payload.
  lemma NoWordIsRead(rest: string)
    requires rest == "" || IsSpace(rest[0])
    ensures Classify(PROGRAM + rest) == if EndsWith(PROGRAM + rest, SUCCESS) then Success else Other
  {
    hide IsInvokeTail, EndsWith;
    var line := PROGRAM + rest;
    assert line[..|PROGRAM|] == PROGRAM;
    assert FirstSpace(line, |PROGRAM|) == |PROGRAM|;
    NoDataWithoutWord(rest);
  }

  lemma NoDataWithoutWord(rest: string)
    requires rest == "" || IsSpace(rest[0])
    ensures !StartsWith(PROGRAM + rest, DATA)
  {
    assert DATA[8] == 'd';
    assert rest != "" ==> (PROGRAM + rest)[8] == rest[0];
  }

  // Lines that do not start with "Program " are nothing to the parser.
  lemma OtherLinesAreFiller(line: string)
    requires !StartsWith(line, PROGRAM)
    ensures Classify(line) == Other
  {
    assert DATA[..|PROGRAM|] == PROGRAM;
    assert StartsWith(line, DATA) ==> StartsWith(line, PROGRAM);
  }

  // ----- Main results -----

  lemma {:induction false} ExtractPrinted(t: Trace, more: seq<string>, stack: seq<string>)
    requires WellFormed(t)
    ensures var owner := if stack == [] then None else Some(stack[|stack| - 1]);
            Extract(Print(t) + more, stack) == Emitted(t, owner) + Extract(more, stack)
    decreases t
  {
    hide Classify, Extract, IsBase64, IsProgramId, IsLevel, InvokeLine;
    var owner := if stack == [] then None else Some(stack[|stack| - 1]);
    match t
    case End => assert Print(t) + more == more;
    case Emit(b, rest) =>
      PayloadIsRead(b);
      ExtractPrinted(rest, more, stack);
      ConcatAssociates([DATA + b], Print(rest), more);
      ExtractCons(DATA + b, Print(rest) + more, stack);
    case Filler(line, rest) =>
      ExtractPrinted(rest, more, stack);
      ConcatAssociates([line], Print(rest), more);
      ExtractCons(line, Print(rest) + more, stack);
    case Call(p, level, inner, rest) =>
      var back := [PROGRAM + p + SUCCESS] + (Print(rest) + more);
      ExtractPrinted(inner, back, stack + [p]);
      ExtractPrinted(rest, more, stack);
      ExtractCall(p, level, Print(inner), Print(rest), more, stack, Emitted(inner, Some(p)));
      ConcatAssociates(Emitted(inner, Some(p)), Emitted(rest, owner), Extract(more, stack));
  }

  lemma ExtractCall(p: string, level: string, inner: seq<string>, rest: seq<string>, more: seq<string>,
                    stack: seq<string>, found: seq<Attributed>)
    requires IsProgramId(p) && IsLevel(level)
    requires var back := [PROGRAM + p + SUCCESS] + (rest + more);
             Extract(inner + back, stack + [p]) == found + Extract(back, stack + [p])
    ensures Extract(([InvokeLine(p, level)] + inner + [PROGRAM + p + SUCCESS] + rest) + more, stack)
            == found + Extract(rest + more, stack)
  {
    hide Classify, Extract, IsProgramId, IsLevel, InvokeLine;
    InvokeIsRead(p, level);
    SuccessIsRead(p);
    var first, last := InvokeLine(p, level), PROGRAM + p + SUCCESS;
    var back := [last] + (rest + more);
    assert ([first] + inner + [last] + rest) + more == [first] + (inner + back);
    ExtractCons(first, inner + back, stack);
    ExtractCons(last, rest + more, stack + [p]);
    assert (stack + [p])[..|stack|] == stack;
  }

  lemma ExtractCons(line: string, more: seq<string>, stack: seq<string>)
    ensures Extract([line] + more, stack)
            == match Classify(line)
               case Invoke(p) => Extract(more, stack + [p])
               case Success => Extract(more, if stack == [] then stack else stack[..|stack| - 1])
               case Payload(b) => (if stack == [] then [] else [(stack[|stack| - 1], b)]) + Extract(more, stack)
               case Other => Extract(more, stack)
  {
    hide Classify;
    assert ([line] + more)[1..] == more;
  }

  // The parser inverts the printer: every payload of a well-formed log goes to
  // the program that emitted it, in order.
  lemma ParserInvertsPrinter(t: Trace)
    requires WellFormed(t)
    ensures Extract(Print(t), []) == Emitted(t, None)
  {
    ExtractPrinted(t, [], []);
    assert Print(t) + [] == Print(t);
    assert Extract([], []) == [];
  }

  // A line that leaves every attribution alone wherever it stands.
  ghost predicate Transparent(line: string) {
    forall more, stack :: Extract([line] + more, stack) == Extract(more, stack)
  }

  // The hypothesis on filler lines is exact: a line is harmless everywhere
  // exactly when it has none of the three forms.
  lemma TransparentIffOther(line: string)
    ensures Transparent(line) <==> Classify(line) == Other
  {
    hide Classify, Extract;
    var probe := [DATA + "AAAA"];
    match Classify(line)
    case Invoke(p) =>
      ExtractCons(line, probe, []);
      assert [] + [p] == [p];
      ProbeFinds(p);
      assert Extract([line] + probe, []) != Extract(probe, []);
    case Success =>
      ExtractCons(line, probe, ["x"]);
      ProbeFinds("x");
      assert ["x"][..0] == [];
      assert Extract([line] + probe, ["x"]) != Extract(probe, ["x"]);
    case Payload(b) =>
      ExtractCons(line, [], ["x"]);
      assert Extract([line] + [], ["x"]) != Extract([], ["x"]);
    case Other =>
      forall more, stack ensures Extract([line] + more, stack) == Extract(more, stack) {
        ExtractCons(line, more, stack);
      }
  }

  lemma ProbeFinds(p: string)
    ensures Extract([DATA + "AAAA"], [p]) == [(p, "AAAA")]
    ensures Extract([DATA + "AAAA"], []) == []
  {
    PayloadIsRead("AAAA");
    assert [DATA + "AAAA"][1..] == [];
  }

  // Program output can have such a form: every `msg!` text that ends in " success"
  // pops the program stack, and the text "invoke [1]" pushes the program "log:".
  lemma LogLineReadAsSuccess(text: string)
    ensures Classify(PROGRAM + "log:" + (" " + (text + SUCCESS))) == Success
    ensures !Transparent(PROGRAM + "log:" + (" " + (text + SUCCESS)))
  {
    hide Classify, Transparent, IsInvocation;
    var all := text + SUCCESS;
    assert all[|text|..] == SUCCESS;
    assert all[|all| - 1] == SUCCESS[|SUCCESS| - 1] == 's';
    NoInvocation(all);
    ProgramLineIsRead("log:", all);
    TransparentIffOther(PROGRAM + "log:" + (" " + all));
  }

  lemma NoInvocation(text: string)
    requires text != [] && text[|text| - 1] != ']'
    ensures !IsInvocation(text)
  {
  }

  lemma LogLineReadAsInvoke()
    ensures Classify(PROGRAM + "log:" + (" " + (INVOKED + "1" + "]"))) == Invoke("log:")
    ensures !Transparent(PROGRAM + "log:" + (" " + (INVOKED + "1" + "]")))
  {
    hide Classify, Transparent;
    assert IsLevel("1");
    assert IsInvocation(INVOKED + "1" + "]");
    ProgramLineIsRead("log:", INVOKED + "1" + "]");
    TransparentIffOther(PROGRAM + "log:" + (" " + (INVOKED + "1" + "]")));
  }
}
