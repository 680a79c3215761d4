/**
 The two-pass assembler and the disassembler of compiler/assembler.py, with the round trip
 from code to text and back and the meaning of resolved labels.
 */
module Assembler {
  import opened Text

  datatype Arg = NoArg | Num(n: nat) | Sym(s: string)

  datatype Instr = Instr(op: string, arg: Arg)

  datatype Error = BadNumber(text: string) | UndefinedLabel(name: string)

  datatype Result<+T> = Ok(value: T) | Err(error: Error)

  // ----- one line -----

  /** Everything before the first semicolon. */
  function CutComment(s: string): (r: string)
    ensures Lacks(r, ';') && r <= s
  {
    if s == [] || s[0] == ';' then [] else [s[0]] + CutComment(s[1..])
  }

  function Clean(line: string): string {
    Strip(CutComment(line))
  }

  predicate IsHexDigit(c: char) {
    IsDigit(c) || 'a' <= c <= 'f' || 'A' <= c <= 'F'
  }

  function HexValue(c: char): nat
    requires IsHexDigit(c)
  {
    if IsDigit(c) then c as int - '0' as int
    else if 'a' <= c <= 'f' then c as int - 'a' as int + 10
    else c as int - 'A' as int + 10
  }

  /** `int(text, 16)` after the prefix: digits, with single underscores before them. */
  function ParseHex(s: string): Result<nat> {
    if s == [] || !IsHexDigit(s[|s| - 1]) then Err(BadNumber(s))
    else
      var before := s[..|s| - 1];
      var digit := HexValue(s[|s| - 1]);
      if before == [] || before == "_" then Ok(digit)
      else
        var shorter := if before[|before| - 1] == '_' then before[..|before| - 1] else before;
        match ParseHex(shorter)
        case Err(e) => Err(e)
        case Ok(n) => Ok(16 * n + digit)
  }

  predicate HasHexPrefix(s: string) {
    |s| >= 2 && s[0] == '0' && s[1] == 'x'
  }

  function ParseArg(s: string): Result<Arg> {
    if AllDigits(s) then Ok(Num(ParseDecimal(s)))
    else if HasHexPrefix(s) then
      match ParseHex(s[2..])
      case Err(_) => Err(BadNumber(s))
      case Ok(n) => Ok(Num(n))
    else Ok(Sym(s))
  }

  datatype Line = Nothing | Label(name: string) | Operation(i: Instr) | Malformed(error: Error)

  predicate EndsWithColon(s: string) {
    s != [] && s[|s| - 1] == ':'
  }

  function ParseLine(line: string): Line {
    var s := Clean(line);
    if s == [] then Nothing
    else if EndsWithColon(s) then Label(s[..|s| - 1])
    else
      StripIsTrimmed(CutComment(line));
      LastWordEnds(s);
      var ws := Words(s);
      var op := Upper(ws[0]);
      if |ws| == 1 then Operation(Instr(op, NoArg))
      else
        match ParseArg(JoinWith(ws[1..], ' '))
        case Err(e) => Malformed(e)
        case Ok(arg) => Operation(Instr(op, arg))
  }

  // ----- two passes -----

  datatype Pass = Pass(code: seq<Instr>, labels: map<string, nat>)

  function FirstPass(lines: seq<string>): Result<Pass> {
    if lines == [] then Ok(Pass([], map[]))
    else
      match FirstPass(lines[..|lines| - 1])
      case Err(e) => Err(e)
      case Ok(p) =>
        match ParseLine(lines[|lines| - 1])
        case Nothing => Ok(p)
        case Label(name) => Ok(p.(labels := p.labels[name := |p.code|]))
        case Operation(i) => Ok(p.(code := p.code + [i]))
        case Malformed(e) => Err(e)
  }

  predicate TakesLabel(op: string) {
    op == "JUMP" || op == "JUMPI" || op == "CALL"
  }

  function ResolveOne(i: Instr, labels: map<string, nat>): Result<Instr> {
    if TakesLabel(i.op) && i.arg.Sym? then
      if i.arg.s in labels then Ok(Instr(i.op, Num(labels[i.arg.s]))) else Err(UndefinedLabel(i.arg.s))
    else Ok(i)
  }

  function Resolve(code: seq<Instr>, labels: map<string, nat>): Result<seq<Instr>> {
    if code == [] then Ok([])
    else
      match Resolve(code[..|code| - 1], labels)
      case Err(e) => Err(e)
      case Ok(done) =>
        match ResolveOne(code[|code| - 1], labels)
        case Err(e) => Err(e)
        case Ok(i) => Ok(done + [i])
  }

  function SourceLines(source: string): seq<string> {
    SplitOn(Strip(source), '\n')
  }

  function Assemble(source: string): Result<seq<Instr>> {
    match FirstPass(SourceLines(source))
    case Err(e) => Err(e)
    case Ok(p) => Resolve(p.code, p.labels)
  }

  class TwoPassAssembler {
    var labels: map<string, nat>
    var code: seq<Instr>

    constructor ()
      ensures labels == map[] && code == []
    {
      labels, code := map[], [];
    }

    /** First pass: labels get the current instruction count. */
    method CollectLabels(lines: seq<string>) returns (failure: Result<()>)
      modifies this
      ensures match FirstPass(lines)
              case Ok(p) => failure.Ok? && code == p.code && labels == p.labels
              case Err(e) => failure == Err(e)
    {
      hide ParseLine;
      code, labels := [], map[];
      var pc := 0;
      for k := 0 to |lines|
        invariant FirstPass(lines[..k]) == Ok(Pass(code, labels)) && pc == |code|
      {
        assert lines[..k + 1][..k] == lines[..k];
        match ParseLine(lines[k])
        case Nothing =>
        case Label(name) => labels := labels[name := pc];
        case Malformed(e) =>
          FirstErrorWins(lines, k + 1);
          return Err(e);
        case Operation(i) =>
          code := code + [i];
          pc := pc + 1;
      }
      assert lines[..|lines|] == lines;
      return Ok(());
    }

    /** Second pass: label operands of jumps and calls are replaced. */
    method ResolveLabels() returns (r: Result<seq<Instr>>)
      ensures r == Resolve(code, labels)
    {
      hide ResolveOne;
      var result: seq<Instr> := [];
      for k := 0 to |code|
        invariant Resolve(code[..k], labels) == Ok(result)
      {
        assert code[..k + 1][..k] == code[..k];
        var x := ResolveOne(code[k], labels);
        if x.Err? {
          FirstResolveErrorWins(code, labels, k + 1);
          return Err(x.error);
        }
        result := result + [x.value];
      }
      assert code[..|code|] == code;
      return Ok(result);
    }

    method Run(source: string) returns (r: Result<seq<Instr>>)
      modifies this
      ensures r == Assemble(source)
    {
      hide FirstPass, Resolve;
      var failure := CollectLabels(SourceLines(source));
      if failure.Err? { return Err(failure.error); }
      r := ResolveLabels();
    }
  }

  lemma {:induction false} FirstErrorWins(lines: seq<string>, k: nat)
    requires k <= |lines| && FirstPass(lines[..k]).Err?
    ensures FirstPass(lines) == FirstPass(lines[..k])
    decreases |lines|
  {
    hide ParseLine;
    if k == |lines| {
      assert lines[..k] == lines;
    } else {
      assert lines[..|lines| - 1][..k] == lines[..k];
      FirstErrorWins(lines[..|lines| - 1], k);
    }
  }

  lemma {:induction false} FirstResolveErrorWins(code: seq<Instr>, labels: map<string, nat>, k: nat)
    requires k <= |code| && Resolve(code[..k], labels).Err?
    ensures Resolve(code, labels) == Resolve(code[..k], labels)
    decreases |code|
  {
    hide ResolveOne;
    if k == |code| {
      assert code[..k] == code;
    } else {
      assert code[..|code| - 1][..k] == code[..k];
      FirstResolveErrorWins(code[..|code| - 1], labels, k);
    }
  }

  // ----- disassembly -----

  function ArgText(arg: Arg): string
    requires !arg.NoArg?
  {
    if arg.Num? then PrintDecimal(arg.n) else arg.s
  }

  function PrintInstr(i: Instr): string {
    if i.arg.NoArg? then i.op else i.op + " " + ArgText(i.arg)
  }

  function PrintLine(i: Instr): string {
    Spaces(4) + PrintInstr(i)
  }

  function PrintLines(code: seq<Instr>): (lines: seq<string>)
    ensures |lines| == |code| && forall k :: 0 <= k < |code| ==> lines[k] == PrintLine(code[k])
  {
    seq(|code|, k requires 0 <= k < |code| => PrintLine(code[k]))
  }

  function Disassemble(code: seq<Instr>): string {
    JoinWith(PrintLines(code), '\n')
  }

  method DisassembleCode(code: seq<Instr>) returns (text: string)
    ensures text == Disassemble(code)
  {
    var lines: seq<string> := [];
    for k := 0 to |code|
      invariant |lines| == k && forall j :: 0 <= j < k ==> lines[j] == PrintLine(code[j])
    {
      lines := lines + [if code[k].arg.NoArg? then Spaces(4) + code[k].op
                        else Spaces(4) + (code[k].op + " " + ArgText(code[k].arg))];
    }
    assert lines == PrintLines(code);
    text := JoinWith(lines, '\n');
  }

  // ----- what assembled code looks like -----

  ghost predicate GoodWords(ws: seq<string>) {
    forall k :: 0 <= k < |ws| ==> IsWord(ws[k]) && Lacks(ws[k], ';')
  }

  ghost predicate GoodArg(arg: Arg) {
    arg.Sym? ==>
      && Words(arg.s) != [] && GoodWords(Words(arg.s))
      && JoinWith(Words(arg.s), ' ') == arg.s
      && !AllDigits(arg.s) && !HasHexPrefix(arg.s) && !EndsWithColon(arg.s)
  }

  ghost predicate Printable(i: Instr) {
    && IsWord(i.op) && Lacks(i.op, ';') && Upper(i.op) == i.op
    && (i.arg.NoArg? ==> !EndsWithColon(i.op))
    && GoodArg(i.arg)
  }

  lemma {:induction false} StripLeftLacks(s: string, c: char)
    requires Lacks(s, c)
    ensures Lacks(StripLeft(s), c)
  {
    if s != [] && Blank(s[0]) { StripLeftLacks(s[1..], c); }
  }

  lemma {:induction false} StripRightLacks(s: string, c: char)
    requires Lacks(s, c)
    ensures Lacks(StripRight(s), c)
  {
    if s != [] && Blank(s[|s| - 1]) { StripRightLacks(s[..|s| - 1], c); }
  }

  lemma StripLacks(s: string, c: char)
    requires Lacks(s, c)
    ensures Lacks(Strip(s), c)
  {
    hide StripLeft, StripRight, Lacks;
    StripLeftLacks(s, c);
    StripRightLacks(StripLeft(s), c);
  }

  lemma CleanedWords(line: string)
    ensures var s := Clean(line); Trimmed(s) && GoodWords(Words(s))
  {
    var s := Clean(line);
    StripIsTrimmed(CutComment(line));
    StripLacks(CutComment(line), ';');
    WordsAreWords(s);
    WordsLack(s, ';');
  }

  lemma {:induction false} ParsedIsPrintable(line: string)
    requires ParseLine(line).Operation?
    ensures Printable(ParseLine(line).i)
  {
    hide ParseDecimal, ParseHex, Strip, Clean, Words, WordLength;
    var s := Clean(line);
    CleanedWords(line);
    LastWordEnds(s);
    var ws := Words(s);
    UpperTwice(ws[0]);
    var i := ParseLine(line).i;
    assert Lacks(ws[0], ';');
    if |ws| == 1 {
      UpperKeepsColon(ws[0]);
    } else {
      var rest := ws[1..];
      WordsOfJoin(rest);
      JoinOfWordsIsTrimmed(rest);
      assert rest[|rest| - 1] == ws[|ws| - 1];
    }
  }

  lemma UpperKeepsColon(s: string)
    ensures EndsWithColon(Upper(s)) <==> EndsWithColon(s)
  {
  }

  lemma {:induction false} FirstPassIsPrintable(lines: seq<string>)
    requires FirstPass(lines).Ok?
    ensures forall k :: 0 <= k < |FirstPass(lines).value.code| ==> Printable(FirstPass(lines).value.code[k])
  {
    hide ParseLine, Printable;
    if lines != [] {
      FirstPassIsPrintable(lines[..|lines| - 1]);
      if ParseLine(lines[|lines| - 1]).Operation? { ParsedIsPrintable(lines[|lines| - 1]); }
    }
  }

  /** No unresolved label is left in resolved code. */
  ghost predicate Resolved(i: Instr) {
    !(TakesLabel(i.op) && i.arg.Sym?)
  }

  lemma {:induction false} ResolveMeaning(code: seq<Instr>, labels: map<string, nat>)
    requires Resolve(code, labels).Ok?
    ensures var r := Resolve(code, labels).value;
            && |r| == |code|
            && forall k :: 0 <= k < |code| ==>
                 && ResolveOne(code[k], labels) == Ok(r[k])
                 && Resolved(r[k])
  {
    if code != [] {
      ResolveMeaning(code[..|code| - 1], labels);
    }
  }

  lemma {:induction false} ResolvedCodeIsStable(code: seq<Instr>, labels: map<string, nat>)
    requires forall k :: 0 <= k < |code| ==> Resolved(code[k])
    ensures Resolve(code, labels) == Ok(code)
  {
    if code != [] {
      var last := |code| - 1;
      ResolvedCodeIsStable(code[..last], labels);
      assert Resolved(code[last]) && code[..last] + [code[last]] == code;
    }
  }

  lemma AssembledIsPrintable(source: string)
    requires Assemble(source).Ok?
    ensures var code := Assemble(source).value;
            forall k :: 0 <= k < |code| ==> Printable(code[k]) && Resolved(code[k])
  {
    hide FirstPass, Resolve, Resolved;
    var p := FirstPass(SourceLines(source)).value;
    FirstPassIsPrintable(SourceLines(source));
    ResolveMeaning(p.code, p.labels);
    var code := Assemble(source).value;
    assert |code| == |p.code|;
    forall k | 0 <= k < |code| ensures Printable(code[k]) && Resolved(code[k]) {
      assert ResolveOne(p.code[k], p.labels) == Ok(code[k]);
      ResolvingKeepsPrintable(p.code[k], p.labels);
    }
  }

  lemma ResolvingKeepsPrintable(i: Instr, labels: map<string, nat>)
    requires Printable(i) && ResolveOne(i, labels).Ok?
    ensures Printable(ResolveOne(i, labels).value)
  {
  }

  // ----- printed lines parse back -----

  /** The words of a printed instruction. */
  ghost function InstrWords(i: Instr): seq<string> {
    [i.op] + (match i.arg case NoArg => [] case Num(n) => [PrintDecimal(n)] case Sym(s) => Words(s))
  }

  lemma PrintedWords(i: Instr)
    requires Printable(i)
    ensures PrintInstr(i) == JoinWith(InstrWords(i), ' ')
    ensures GoodWords(InstrWords(i))
    ensures !EndsWithColon(PrintInstr(i))
  {
    hide Words, PrintDecimal, AllDigits;
    var ws := InstrWords(i);
    assert ws[1..] == match i.arg case NoArg => [] case Num(n) => [PrintDecimal(n)] case Sym(s) => Words(s);
    if i.arg.Num? {
      DigitsAreWords(PrintDecimal(i.arg.n));
    }
    if !i.arg.NoArg? {
      var t := ArgText(i.arg);
      assert JoinWith(ws[1..], ' ') == t;
      assert t != [] by { if i.arg.Sym? { JoinOfWordsIsTrimmed(ws[1..]); } }
      assert PrintInstr(i)[|PrintInstr(i)| - 1] == t[|t| - 1];
    }
  }

  lemma DigitsAreWords(s: string)
    requires AllDigits(s)
    ensures IsWord(s) && Lacks(s, ';') && !EndsWithColon(s)
  {
    forall k | 0 <= k < |s| ensures !Blank(s[k]) && s[k] != ';' && s[k] != ':' { assert IsDigit(s[k]); }
  }

  lemma {:induction false} CutCommentOfPlain(s: string)
    requires Lacks(s, ';')
    ensures CutComment(s) == s
  {
    if s != [] {
      CutCommentOfPlain(s[1..]);
      assert [s[0]] + s[1..] == s;
    }
  }

  /** A printed instruction, with any indentation, parses to itself. */
  lemma PrintedLineParses(i: Instr, indent: nat)
    requires Printable(i)
    ensures ParseLine(Spaces(indent) + PrintInstr(i)) == Operation(i)
  {
    hide Words, PrintDecimal, ParseDecimal, ParseHex, Strip, CutComment, Upper, PrintInstr, JoinWith, AllDigits, HasHexPrefix, Spaces;
    var ws := InstrWords(i);
    var body := PrintInstr(i);
    var line := Spaces(indent) + body;
    PrintedWords(i);
    JoinLacks(ws, ' ', ';');
    JoinOfWordsIsTrimmed(ws);
    IndentLacks(indent, body);
    CutCommentOfPlain(line);
    StripIndented(indent, body);
    assert Clean(line) == body && body != [];
    WordsOfJoin(ws);
    assert Words(body) == ws;
    if !i.arg.NoArg? {
      ArgParses(i);
    }
  }

  lemma IndentLacks(indent: nat, body: string)
    requires Lacks(body, ';')
    ensures Lacks(Spaces(indent) + body, ';')
  {
  }

  lemma ArgParses(i: Instr)
    requires Printable(i) && !i.arg.NoArg?
    ensures |InstrWords(i)| > 1
    ensures ParseArg(JoinWith(InstrWords(i)[1..], ' ')) == Ok(i.arg)
  {
    hide Words, PrintDecimal, ParseDecimal, ParseHex;
    var ws := InstrWords(i);
    if i.arg.Num? {
      assert ws[1..] == [PrintDecimal(i.arg.n)];
      DecimalRoundTrip(i.arg.n);
    } else {
      assert ws[1..] == Words(i.arg.s);
    }
  }

  // ----- the round trip -----

  /** The lines of the stripped text: only the first line loses its indentation. */
  ghost function StrippedLines(code: seq<Instr>): seq<string>
    requires code != []
  {
    [PrintInstr(code[0])] + PrintLines(code)[1..]
  }

  lemma DisassemblyLines(code: seq<Instr>)
    requires code != [] && forall k :: 0 <= k < |code| ==> Printable(code[k])
    ensures SourceLines(Disassemble(code)) == StrippedLines(code)
  {
    hide PrintInstr, Printable, Strip;
    var lines := PrintLines(code);
    var stripped := StrippedLines(code);
    assert lines[0] == Spaces(4) + stripped[0];
    assert stripped[1..] == lines[1..];
    var body := JoinWith(stripped, '\n');
    assert Disassemble(code) == Spaces(4) + body;
    forall k | 0 <= k < |code| ensures Lacks(stripped[k], '\n') {
      PrintedIsOneLine(code[k]);
      if k > 0 {
        assert stripped[k] == Spaces(4) + PrintInstr(code[k]);
        IndentLacksNewline(4, PrintInstr(code[k]));
      }
    }
    SplitOfJoin(stripped, '\n');
    BodyIsTrimmed(code, stripped);
    StripIndented(4, body);
  }

  lemma IndentLacksNewline(indent: nat, body: string)
    requires Lacks(body, '\n')
    ensures Lacks(Spaces(indent) + body, '\n')
  {
  }

  lemma PrintedIsOneLine(i: Instr)
    requires Printable(i)
    ensures Lacks(PrintInstr(i), '\n') && Trimmed(PrintInstr(i)) && PrintInstr(i) != []
  {
    hide PrintInstr, Words;
    PrintedWords(i);
    var ws := InstrWords(i);
    JoinOfWordsIsTrimmed(ws);
    forall k | 0 <= k < |ws| ensures Lacks(ws[k], '\n') {
      assert IsWord(ws[k]);
    }
    JoinLacks(ws, ' ', '\n');
  }

  lemma {:induction false} JoinEnds(lines: seq<string>)
    requires lines != [] && lines[0] != [] && lines[|lines| - 1] != []
    ensures var s := JoinWith(lines, '\n');
            s != [] && s[0] == lines[0][0] && s[|s| - 1] == lines[|lines| - 1][|lines[|lines| - 1]| - 1]
  {
    if |lines| == 2 {
      assert JoinWith(lines[1..], '\n') == lines[1];
    } else if |lines| > 2 {
      JoinLast(lines[1..]);
      assert lines[1..][|lines| - 2] == lines[|lines| - 1];
    }
  }

  lemma {:induction false} JoinLast(lines: seq<string>)
    requires lines != [] && lines[|lines| - 1] != []
    ensures var s := JoinWith(lines, '\n'); s != [] && s[|s| - 1] == lines[|lines| - 1][|lines[|lines| - 1]| - 1]
  {
    if |lines| > 1 { JoinLast(lines[1..]); }
  }

  lemma BodyIsTrimmed(code: seq<Instr>, stripped: seq<string>)
    requires code != [] && forall k :: 0 <= k < |code| ==> Printable(code[k])
    requires stripped == StrippedLines(code)
    ensures Trimmed(JoinWith(stripped, '\n'))
  {
    hide PrintInstr, Printable;
    var last := |code| - 1;
    PrintedIsOneLine(code[0]);
    PrintedIsOneLine(code[last]);
    var tail := stripped[last];
    assert tail != [] && !Blank(tail[|tail| - 1]) by {
      if last > 0 { assert tail == Spaces(4) + PrintInstr(code[last]); }
    }
    JoinEnds(stripped);
  }

  lemma {:induction false} ParsesToCode(lines: seq<string>, code: seq<Instr>)
    requires |lines| == |code| && forall k :: 0 <= k < |code| ==> ParseLine(lines[k]) == Operation(code[k])
    ensures FirstPass(lines) == Ok(Pass(code, map[]))
  {
    hide ParseLine;
    if code != [] {
      var last := |code| - 1;
      ParsesToCode(lines[..last], code[..last]);
      assert code[..last] + [code[last]] == code;
    }
  }

  /** Assembling the disassembly of assembled code gives the same code. */
  lemma RoundTrip(source: string)
    requires Assemble(source).Ok?
    ensures Assemble(Disassemble(Assemble(source).value)) == Assemble(source)
  {
    hide Resolve, FirstPass, ParseLine, Printable, Resolved, SourceLines;
    var code := Assemble(source).value;
    AssembledIsPrintable(source);
    ResolvedCodeIsStable(code, map[]);
    if code == [] {
      EmptyProgram();
    } else {
      DisassemblyLines(code);
      var lines := StrippedLines(code);
      forall k | 0 <= k < |code| ensures ParseLine(lines[k]) == Operation(code[k]) {
        if k == 0 {
          PrintedLineParses(code[0], 0);
          assert Spaces(0) + PrintInstr(code[0]) == lines[0];
        } else {
          PrintedLineParses(code[k], 4);
          assert lines[k] == Spaces(4) + PrintInstr(code[k]);
        }
      }
      ParsesToCode(lines, code);
    }
  }

  lemma EmptyProgram()
    ensures Disassemble([]) == "" && FirstPass(SourceLines("")) == Ok(Pass([], map[]))
  {
    assert SourceLines("") == [""];
    assert ParseLine("") == Nothing;
    assert [""][..0] == [];
    assert FirstPass([]) == Ok(Pass([], map[]));
  }

  // ----- labels -----

  /** Line `k` is the last definition of the label. */
  ghost predicate LastDefinition(lines: seq<string>, name: string, k: nat) {
    && k < |lines| && ParseLine(lines[k]) == Label(name)
    && forall j :: k < j < |lines| ==> ParseLine(lines[j]) != Label(name)
  }

  function CountOperations(lines: seq<string>): nat {
    if lines == [] then 0
    else CountOperations(lines[..|lines| - 1]) + (if ParseLine(lines[|lines| - 1]).Operation? then 1 else 0)
  }

  /** The target is the number of instructions before the label's last definition. */
  ghost predicate JumpsTo(lines: seq<string>, name: string, target: nat) {
    exists k: nat :: LastDefinition(lines, name, k) && target == CountOperations(lines[..k])
  }

  /** A label's value is the number of instructions before its last definition. */
  lemma {:induction false} LabelsMeaning(lines: seq<string>)
    requires FirstPass(lines).Ok?
    ensures var p := FirstPass(lines).value;
            && |p.code| == CountOperations(lines)
            && (forall name :: name in p.labels ==> p.labels[name] <= |p.code|)
            && (forall name :: name in p.labels ==> JumpsTo(lines, name, p.labels[name]))
            && (forall name :: name !in p.labels ==> forall j :: 0 <= j < |lines| ==> ParseLine(lines[j]) != Label(name))
  {
    hide ParseLine;
    if lines != [] {
      var last := |lines| - 1;
      LabelsMeaning(lines[..last]);
      var q, p := FirstPass(lines[..last]).value, FirstPass(lines).value;
      var parsed := ParseLine(lines[last]);
      forall name | name in p.labels ensures JumpsTo(lines, name, p.labels[name]) {
        if parsed == Label(name) {
          assert LastDefinition(lines, name, last);
        } else {
          DefinitionStays(lines, name, q.labels[name]);
        }
      }
    }
  }

  lemma DefinitionStays(lines: seq<string>, name: string, target: nat)
    requires lines != [] && JumpsTo(lines[..|lines| - 1], name, target) && ParseLine(lines[|lines| - 1]) != Label(name)
    ensures JumpsTo(lines, name, target)
  {
    hide ParseLine, CountOperations;
    var shorter := lines[..|lines| - 1];
    var k: nat :| LastDefinition(shorter, name, k) && target == CountOperations(shorter[..k]);
    assert shorter[..k] == lines[..k];
    assert LastDefinition(lines, name, k);
  }

  /**
   Every jump or call by label in the assembled code points at the instruction that follows
   the label's last definition, or just past the end.
   */
  lemma JumpTargets(source: string, p: Pass, code: seq<Instr>, k: nat)
    requires FirstPass(SourceLines(source)) == Ok(p) && Assemble(source) == Ok(code) && k < |code|
    ensures |p.code| == |code|
    ensures !(p.code[k].op in {"JUMP", "JUMPI", "CALL"} && p.code[k].arg.Sym?) ==> code[k] == p.code[k]
    ensures p.code[k].op in {"JUMP", "JUMPI", "CALL"} && p.code[k].arg.Sym? ==>
              && code[k].op == p.code[k].op && code[k].arg.Num? && code[k].arg.n <= |code|
              && JumpsTo(SourceLines(source), p.code[k].arg.s, code[k].arg.n)
  {
    hide Resolve, FirstPass, JumpsTo, SourceLines, ParseLine, CountOperations, LastDefinition;
    ResolveMeaning(p.code, p.labels);
    LabelsMeaning(SourceLines(source));
  }

  // ----- which programs assemble -----

  /** Line `k` is an instruction whose operand has to be a label. */
  ghost predicate NeedsLabel(line: string, name: string) {
    ParseLine(line).Operation? && ParseLine(line).i.op in {"JUMP", "JUMPI", "CALL"} && ParseLine(line).i.arg == Sym(name)
  }

  ghost predicate Defined(lines: seq<string>, name: string) {
    exists j :: 0 <= j < |lines| && ParseLine(lines[j]) == Label(name)
  }

  lemma {:induction false} FirstPassIff(lines: seq<string>)
    ensures FirstPass(lines).Ok? <==> forall k :: 0 <= k < |lines| ==> !ParseLine(lines[k]).Malformed?
    ensures FirstPass(lines).Ok? ==>
              forall i :: i in FirstPass(lines).value.code <==>
                exists k :: 0 <= k < |lines| && ParseLine(lines[k]) == Operation(i)
    ensures FirstPass(lines).Ok? ==>
              forall name :: name in FirstPass(lines).value.labels <==> Defined(lines, name)
  {
    hide ParseLine;
    if lines != [] {
      var last := |lines| - 1;
      FirstPassIff(lines[..last]);
      assert forall k :: 0 <= k < last ==> lines[..last][k] == lines[k];
      if FirstPass(lines[..last]).Ok? {
        forall name ensures Defined(lines, name) <==> Defined(lines[..last], name) || ParseLine(lines[last]) == Label(name) {
          DefinedOneMore(lines, name);
        }
        forall i ensures (exists k :: 0 <= k < |lines| && ParseLine(lines[k]) == Operation(i)) <==>
                           (exists k :: 0 <= k < last && ParseLine(lines[..last][k]) == Operation(i)) || ParseLine(lines[last]) == Operation(i) {
          OperationOneMore(lines, i);
        }
      }
    }
  }

  lemma DefinedOneMore(lines: seq<string>, name: string)
    requires lines != []
    ensures Defined(lines, name) <==> Defined(lines[..|lines| - 1], name) || ParseLine(lines[|lines| - 1]) == Label(name)
  {
    hide ParseLine;
    if Defined(lines[..|lines| - 1], name) {
      var j :| 0 <= j < |lines| - 1 && ParseLine(lines[..|lines| - 1][j]) == Label(name);
      assert ParseLine(lines[j]) == Label(name);
    }
    if j :| 0 <= j < |lines| - 1 && ParseLine(lines[j]) == Label(name) {
      assert lines[..|lines| - 1][j] == lines[j];
    }
  }

  lemma OperationOneMore(lines: seq<string>, i: Instr)
    requires lines != []
    ensures var last := |lines| - 1;
            (exists k :: 0 <= k < |lines| && ParseLine(lines[k]) == Operation(i)) <==>
              (exists k :: 0 <= k < last && ParseLine(lines[..last][k]) == Operation(i)) || ParseLine(lines[last]) == Operation(i)
  {
    hide ParseLine;
    var last := |lines| - 1;
    if k :| 0 <= k < last && ParseLine(lines[..last][k]) == Operation(i) { assert lines[k] == lines[..last][k]; }
    if k :| 0 <= k < last && ParseLine(lines[k]) == Operation(i) { assert lines[k] == lines[..last][k]; }
  }

  lemma {:induction false} ResolveIff(code: seq<Instr>, labels: map<string, nat>)
    ensures Resolve(code, labels).Ok? <==>
              forall i :: i in code && i.op in {"JUMP", "JUMPI", "CALL"} && i.arg.Sym? ==> i.arg.s in labels
  {
    if code != [] {
      var last := |code| - 1;
      ResolveIff(code[..last], labels);
      assert forall i :: i in code <==> i in code[..last] || i == code[last];
    }
  }

  /**
   A source assembles if and only if no line has a malformed number and every JUMP, JUMPI or CALL
   with a symbolic operand names a label that some line defines, before or after it.
   */
  lemma AssemblesIff(source: string)
    ensures var lines := SourceLines(source);
            Assemble(source).Ok? <==>
              && (forall k :: 0 <= k < |lines| ==> !ParseLine(lines[k]).Malformed?)
              && (forall k, name :: 0 <= k < |lines| && NeedsLabel(lines[k], name) ==> Defined(lines, name))
  {
    hide ParseLine, FirstPass, Resolve, SourceLines, Defined;
    var lines := SourceLines(source);
    FirstPassIff(lines);
    if FirstPass(lines).Ok? {
      var p := FirstPass(lines).value;
      ResolveIff(p.code, p.labels);
      if forall k, name :: 0 <= k < |lines| && NeedsLabel(lines[k], name) ==> Defined(lines, name) {
        forall i | i in p.code && i.op in {"JUMP", "JUMPI", "CALL"} && i.arg.Sym? ensures i.arg.s in p.labels {
          var k :| 0 <= k < |lines| && ParseLine(lines[k]) == Operation(i);
          assert NeedsLabel(lines[k], i.arg.s);
        }
      }
      if Resolve(p.code, p.labels).Ok? {
        forall k, name | 0 <= k < |lines| && NeedsLabel(lines[k], name) ensures Defined(lines, name) {
          assert ParseLine(lines[k]).i in p.code;
        }
      }
    }
  }

  // ----- what a line means -----

  /** A comment changes nothing, and a line without text is skipped. */
  lemma CommentsAreIgnored(line: string, comment: string)
    requires Lacks(line, ';')
    ensures ParseLine(line + ";" + comment) == ParseLine(line)
    ensures ParseLine(";" + comment) == Nothing && ParseLine("") == Nothing
  {
    hide Words, ParseArg;
    CutAtSemicolon(line, comment);
    CutAtSemicolon("", comment);
    assert "" + ";" + comment == ";" + comment;
    CutCommentOfPlain(line);
  }

  lemma {:induction false} CutAtSemicolon(line: string, comment: string)
    requires Lacks(line, ';')
    ensures CutComment(line + ";" + comment) == line
  {
    var s := line + ";" + comment;
    if line != [] {
      assert s[1..] == line[1..] + ";" + comment;
      CutAtSemicolon(line[1..], comment);
      assert line == [line[0]] + line[1..];
    }
  }

  /** A line that ends with a colon defines the label in front of it. */
  lemma LabelLine(name: string)
    requires Lacks(name, ';') && Trimmed(name + ":")
    ensures ParseLine(name + ":") == Label(name)
  {
    hide Words, ParseArg, Strip, CutComment;
    var s := name + ":";
    assert Lacks(s, ';');
    CutCommentOfPlain(s);
    StripTrimmed(s);
    assert s[..|s| - 1] == name;
  }

  /** The operand of an instruction: decimal digits, hexadecimal digits after 0x, or a name. */
  ghost predicate Means(text: string, arg: Arg) {
    || (AllDigits(text) && arg == Num(ParseDecimal(text)))
    || (exists n: nat :: arg == Num(n) && (text == "0x" + PrintHex(n) || text == "0x" + Upper(PrintHex(n))))
    || (!AllDigits(text) && !(|text| >= 2 && text[..2] == "0x") && arg == Sym(text))
  }

  /**
   Any other line is an instruction: the first word in upper case, and what follows it, joined by
   single spaces, as its operand.
   */
  lemma InstructionLine(ws: seq<string>, arg: Arg)
    requires ws != [] && GoodWords(ws) && !EndsWithColon(ws[|ws| - 1])
    requires if |ws| == 1 then arg == NoArg else Means(JoinWith(ws[1..], ' '), arg)
    ensures ParseLine(JoinWith(ws, ' ')) == Operation(Instr(Upper(ws[0]), arg))
  {
    hide Words, PrintDecimal, ParseDecimal, Strip, CutComment, Upper, JoinWith, AllDigits, ParseArg, Means;
    var body := JoinWith(ws, ' ');
    JoinLacks(ws, ' ', ';');
    JoinOfWordsIsTrimmed(ws);
    CutCommentOfPlain(body);
    StripTrimmed(body);
    WordsOfJoin(ws);
    LastCharOfJoin(ws);
    if |ws| > 1 { MeansParses(JoinWith(ws[1..], ' '), arg); }
  }

  lemma {:induction false} LastCharOfJoin(ws: seq<string>)
    requires ws != [] && GoodWords(ws)
    ensures var s := JoinWith(ws, ' ');
            s != [] && s[|s| - 1] == ws[|ws| - 1][|ws[|ws| - 1]| - 1]
  {
    if |ws| > 1 { LastCharOfJoin(ws[1..]); }
  }

  lemma MeansParses(text: string, arg: Arg)
    requires Means(text, arg)
    ensures ParseArg(text) == Ok(arg)
  {
    hide ParseDecimal, PrintHex, ParseHex;
    if n: nat :| arg == Num(n) && (text == "0x" + PrintHex(n) || text == "0x" + Upper(PrintHex(n))) {
      HexRoundTrip(n);
      assert text[2..] == PrintHex(n) || text[2..] == Upper(PrintHex(n));
      assert text[0] == '0' && text[1] == 'x' && !IsDigit(text[1]);
    }
  }

  function HexChar(d: nat): char
    requires d < 16
  {
    "0123456789abcdef"[d]
  }

  function PrintHex(n: nat): (s: string)
    ensures s != []
  {
    if n < 16 then [HexChar(n)] else PrintHex(n / 16) + [HexChar(n % 16)]
  }

  lemma HexDigit(d: nat)
    requires d < 16
    ensures IsHexDigit(HexChar(d)) && HexValue(HexChar(d)) == d && HexChar(d) != '_'
    ensures var u := Upper([HexChar(d)])[0];
            IsHexDigit(u) && HexValue(u) == d && u != '_'
  {
  }

  lemma HexOneMore(s: string, n: nat, c: char)
    requires s != [] && s[|s| - 1] != '_' && ParseHex(s) == Ok(n) && IsHexDigit(c)
    ensures ParseHex(s + [c]) == Ok(16 * n + HexValue(c))
  {
    hide HexValue, IsHexDigit;
    var t := s + [c];
    assert t[..|t| - 1] == s && s != "_";
  }

  lemma HexOfDigit(c: char)
    requires IsHexDigit(c)
    ensures ParseHex([c]) == Ok(HexValue(c))
  {
    hide HexValue, IsHexDigit;
    assert [c][..0] == [];
  }

  lemma UpperOneMore(s: string, c: char)
    ensures Upper(s + [c]) == Upper(s) + [Upper([c])[0]]
  {
  }

  /** Hexadecimal numbers in either case are read back. */
  lemma {:induction false} HexRoundTrip(n: nat)
    ensures ParseHex(PrintHex(n)) == Ok(n) && ParseHex(Upper(PrintHex(n))) == Ok(n)
    ensures PrintHex(n)[|PrintHex(n)| - 1] != '_' && Upper(PrintHex(n))[|PrintHex(n)| - 1] != '_'
  {
    hide ParseHex, HexValue, IsHexDigit, Upper, HexChar;
    var d := n % 16;
    var c := HexChar(d);
    var u := Upper([c])[0];
    HexDigit(d);
    if n < 16 {
      HexOfDigit(c);
      HexOfDigit(u);
      UpperOneMore([], c);
      assert [] + [c] == [c] && Upper([]) + [u] == [u];
    } else {
      HexRoundTrip(n / 16);
      var before := PrintHex(n / 16);
      HexOneMore(before, n / 16, c);
      HexOneMore(Upper(before), n / 16, u);
      UpperOneMore(before, c);
    }
  }

  /** A single underscore may stand before a digit. */
  lemma HexUnderscore(s: string, n: nat, c: char)
    requires s != [] && s[|s| - 1] != '_' && ParseHex(s) == Ok(n) && IsHexDigit(c)
    ensures ParseHex(s + "_" + [c]) == Ok(16 * n + HexValue(c))
  {
    hide HexValue, IsHexDigit;
    var u, t := s + "_", s + "_" + [c];
    assert t[..|t| - 1] == u && |u| > 1 && u[|u| - 1] == '_' && u[..|u| - 1] == s && t[|t| - 1] == c;
  }

  lemma HexLeadingUnderscore(c: char)
    requires IsHexDigit(c)
    ensures ParseHex(['_', c]) == Ok(HexValue(c))
  {
    hide HexValue, IsHexDigit;
    assert ['_', c][..1] == "_";
  }

  /** A prefix without digits is malformed. */
  lemma BarePrefixIsMalformed()
    ensures ParseArg("0x") == Err(BadNumber("0x"))
  {
    var s := "0x";
    assert s[1] == 'x' && !IsDigit(s[1]);
    assert s[2..] == [];
    assert ParseHex([]).Err?;
  }

  lemma DecimalOf120()
    ensures PrintDecimal(120) == "120"
  {
    assert PrintDecimal(1) == "1";
    assert PrintDecimal(12) == "12";
  }

  lemma FourSpaces()
    ensures Spaces(4) == "    "
  {
    assert Spaces(1) == " " && Spaces(2) == "  " && Spaces(3) == "   ";
  }

  lemma PushLine()
    ensures PrintLine(Instr("PUSH", Num(120))) == "    PUSH 120" && PrintLine(Instr("HALT", NoArg)) == "    HALT"
  {
    hide PrintDecimal, Spaces;
    DecimalOf120();
    FourSpaces();
    assert PrintInstr(Instr("PUSH", Num(120))) == "PUSH" + " " + "120";
    assert "PUSH" + " " + "120" == "PUSH 120";
    assert "    " + "PUSH 120" == "    PUSH 120" && "    " + "HALT" == "    HALT";
  }

  /** The listing, written out for two instructions: four spaces, the operand in decimal, one line each. */
  lemma ListingOfTwo()
    ensures Disassemble([Instr("PUSH", Num(120)), Instr("HALT", NoArg)]) == "    PUSH 120\n    HALT"
  {
    hide PrintLine;
    var code := [Instr("PUSH", Num(120)), Instr("HALT", NoArg)];
    PushLine();
    var p, q, lines := PrintLine(code[0]), PrintLine(code[1]), PrintLines(code);
    assert lines == [p, q];
    hide PrintLines;
    assert lines[1..] == [q] && [q][1..] == [];
    JoinOfTwo(p, q, '\n');
    assert p + ['\n'] + q == "    PUSH 120\n    HALT";
  }

  lemma JoinOfTwo(p: string, q: string, c: char)
    ensures JoinWith([p, q], c) == p + [c] + q
  {
    assert [p, q][1..] == [q];
    assert JoinWith([q], c) == q;
  }
}
