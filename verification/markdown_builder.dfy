/** `MarkdownBuilder`: an append-only accumulator of output lines.

    The original is a class whose methods push onto a private array and return the
    builder itself for chaining. Here a builder is a value and every method returns
    the next builder; a method whose generator call throws yields that error. */
module MarkdownBuilder {
  import opened Wrappers
  import MarkdownGenerator
  import Strings

  /** A builder's accumulated output lines. */
  datatype Builder = Builder(output: seq<string>)

  /** What `resolveInput` accepts, apart from the callback form: a single line, a list
      of lines, or another builder. */
  datatype Input = Line(text: string) | LineList(lines: seq<string>) | OtherBuilder(builder: Builder)

  /** The constructor's optional argument: a list of lines or another builder. */
  datatype Seed = SeedLines(lines: seq<string>) | SeedBuilder(builder: Builder)

  /** `resolveInput`: a line becomes a one-line list, a list is taken as it is, and a
      builder contributes its current output. */
  function ResolveInput(input: Input): (lines: seq<string>)
    ensures input.Line? ==> lines == [input.text]
    ensures input.LineList? ==> lines == input.lines
    ensures input.OtherBuilder? ==> lines == input.builder.output
  {
    match input
    case Line(text) => [text]
    case LineList(lines) => lines
    case OtherBuilder(other) => other.output
  }

  /** The constructor: empty without an argument, otherwise seeded with the given
      lines or with the other builder's current output. */
  function New(seed: Option<Seed>): (b: Builder)
    ensures seed.None? ==> b.output == []
    ensures seed.Some? && seed.value.SeedLines? ==> b.output == seed.value.lines
    ensures seed.Some? && seed.value.SeedBuilder? ==> b.output == seed.value.builder.output
  {
    match seed
    case None => Builder(ResolveInput(LineList([])))
    case Some(SeedLines(lines)) => Builder(ResolveInput(LineList(lines)))
    case Some(SeedBuilder(other)) => Builder(ResolveInput(OtherBuilder(other)))
  }

  /** `GetOutput`: the accumulated lines themselves, in the order they were added. */
  function GetOutput(b: Builder): (lines: seq<string>)
    ensures lines == b.output
  {
    b.output
  }

  /** `Text`: appends the resolved lines in order. Its declared parameter type admits
      a line or a list of lines; a builder passes only through `resolveInput`'s
      run-time check, and is accepted here as well. */
  function Text(b: Builder, input: Input): (next: Builder)
    ensures b.output <= next.output
    ensures next.output[|b.output|..] == ResolveInput(input)
  {
    Builder(b.output + ResolveInput(input))
  }

  /** `NewLine`: appends one empty line. */
  function NewLine(b: Builder): (next: Builder)
    ensures |next.output| == |b.output| + 1
    ensures next.output[..|b.output|] == b.output
    ensures next.output[|b.output|] == ""
  {
    Builder(b.output + [""])
  }

  /** `Blockquote`: appends the resolved lines verbatim; unlike the generator's
      `blockquote`, no `> ` marker is added. */
  function Blockquote(b: Builder, input: Input): (next: Builder)
    ensures b.output <= next.output
    ensures next.output[|b.output|..] == ResolveInput(input)
  {
    Builder(b.output + ResolveInput(input))
  }

  /** `Header`: appends the one line of `MarkdownGenerator.Header`, or fails as it does. */
  function Header(b: Builder, text: string, headerLevel: int, closing: bool := false): (r: Result<Builder, string>)
    ensures r.Failure? <==> MarkdownGenerator.Header(text, headerLevel, closing).Failure?
    ensures r.Success? ==>
      && |r.value.output| == |b.output| + 1
      && r.value.output[..|b.output|] == b.output
      && r.value.output[|b.output|] == MarkdownGenerator.Header(text, headerLevel, closing).value
  {
    match MarkdownGenerator.Header(text, headerLevel, closing)
    case Success(line) => Success(Builder(b.output + [line]))
    case Failure(e) => Failure(e)
  }

  /** `UnderlineHeader`: appends the two lines of `MarkdownGenerator.UnderlineHeader`,
      or fails as it does. */
  function UnderlineHeader(b: Builder, text: string, headerLevel: int): (r: Result<Builder, string>)
    ensures r.Failure? <==> MarkdownGenerator.UnderlineHeader(text, headerLevel).Failure?
    ensures r.Success? ==>
      && |r.value.output| == |b.output| + 2
      && r.value.output[..|b.output|] == b.output
      && r.value.output[|b.output|..] == MarkdownGenerator.UnderlineHeader(text, headerLevel).value
  {
    match MarkdownGenerator.UnderlineHeader(text, headerLevel)
    case Success(lines) => Success(Builder(b.output + lines))
    case Failure(e) => Failure(e)
  }

  /** The methods that push one generated line (`Link`, `LinkDefinition`, `Image`,
      `HorizontalRule`, `Italic`, `Bold`, `StrikeThrough`, `InlineCode`), with the line
      they generate given as an argument. */
  function AppendLine(b: Builder, line: string): (next: Builder)
    ensures |next.output| == |b.output| + 1
    ensures next.output[..|b.output|] == b.output
    ensures next.output[|b.output|] == line
  {
    Builder(b.output + [line])
  }

  /** The methods that concatenate generated lines (`UnorderedList`, `OrderedList`,
      `Code`, `Table`), with the lines they generate given as an argument. */
  function AppendLines(b: Builder, lines: seq<string>): (next: Builder)
    ensures b.output <= next.output
    ensures next.output[|b.output|..] == lines
  {
    Builder(b.output + lines)
  }

  /** One builder method call, with its arguments. */
  datatype Op =
    | TextOp(input: Input)
    | NewLineOp
    | BlockquoteOp(input: Input)
    | HeaderOp(text: string, level: int, closing: bool)
    | UnderlineHeaderOp(text: string, level: int)
    | AppendLineOp(line: string)
    | AppendLinesOp(lines: seq<string>)

  /** Performs one method call on `b`. */
  function Step(b: Builder, op: Op): Result<Builder, string>
  {
    match op
    case TextOp(input) => Success(Text(b, input))
    case NewLineOp => Success(NewLine(b))
    case BlockquoteOp(input) => Success(Blockquote(b, input))
    case HeaderOp(text, level, closing) => Header(b, text, level, closing)
    case UnderlineHeaderOp(text, level) => UnderlineHeader(b, text, level)
    case AppendLineOp(line) => Success(AppendLine(b, line))
    case AppendLinesOp(lines) => Success(AppendLines(b, lines))
  }

  /** A chain of method calls; the first one that throws ends the chain. */
  function Run(b: Builder, ops: seq<Op>): Result<Builder, string>
    decreases |ops|
  {
    if |ops| == 0 then Success(b)
    else
      match Step(b, ops[0])
      case Success(next) => Run(next, ops[1..])
      case Failure(e) => Failure(e)
  }

  /** The lines one call contributes, whatever the builder already holds. */
  function Emitted(op: Op): Result<seq<string>, string>
  {
    match op
    case TextOp(input) => Success(ResolveInput(input))
    case NewLineOp => Success([""])
    case BlockquoteOp(input) => Success(ResolveInput(input))
    case HeaderOp(text, level, closing) =>
      (match MarkdownGenerator.Header(text, level, closing)
       case Success(line) => Success([line])
       case Failure(e) => Failure(e))
    case UnderlineHeaderOp(text, level) => MarkdownGenerator.UnderlineHeader(text, level)
    case AppendLineOp(line) => Success([line])
    case AppendLinesOp(lines) => Success(lines)
  }

  /** The lines a chain of calls contributes, or the first error. */
  function EmittedAll(ops: seq<Op>): Result<seq<string>, string>
  {
    if |ops| == 0 then Success([])
    else
      match Emitted(ops[0])
      case Failure(e) => Failure(e)
      case Success(first) =>
        match EmittedAll(ops[1..])
        case Failure(e) => Failure(e)
        case Success(rest) => Success(first + rest)
  }

  /** Every method only appends: a call succeeds exactly when its generator does, and
      then the old output is kept and the call's own lines follow it. */
  lemma StepAppends(b: Builder, op: Op)
    ensures Step(b, op).Success? <==> Emitted(op).Success?
    ensures Step(b, op).Failure? ==> Step(b, op).error == Emitted(op).error
    ensures Step(b, op).Success? ==> Step(b, op).value.output == b.output + Emitted(op).value
  {
    var r := Step(b, op);
    if r.Success? {
      var out := r.value.output;
      assert out == out[..|b.output|] + out[|b.output|..];
    }
  }

  /** A chain of calls appends, in order, the lines of each call to the lines the
      builder started with, whatever they were; the chain fails with the first error. */
  lemma {:induction false} RunAppends(b: Builder, ops: seq<Op>)
    ensures Run(b, ops).Success? <==> EmittedAll(ops).Success?
    ensures Run(b, ops).Failure? ==> Run(b, ops).error == EmittedAll(ops).error
    ensures Run(b, ops).Success? ==> Run(b, ops).value.output == b.output + EmittedAll(ops).value
    decreases |ops|
  {
    if |ops| > 0 {
      StepAppends(b, ops[0]);
      match Step(b, ops[0])
      case Success(next) =>
        RunAppends(next, ops[1..]);
      case Failure(e) =>
    }
  }

  /** Append-only: the output before a chain of calls is a prefix of the output after. */
  lemma RunKeepsPrefix(b: Builder, ops: seq<Op>)
    requires Run(b, ops).Success?
    ensures b.output <= Run(b, ops).value.output
  {
    RunAppends(b, ops);
  }

  /** The header, empty line and text chain on a fresh builder. */
  lemma ChainExample()
    ensures Run(New(None), [HeaderOp("X", 1, false), NewLineOp, TextOp(Line("hi"))])
      == Success(Builder(["# X", "", "hi"]))
  {
    var ops := [HeaderOp("X", 1, false), NewLineOp, TextOp(Line("hi"))];
    Strings.TrimOfTrimmed("X");
    assert Strings.Repeat('#', 1) == "#";
    assert MarkdownGenerator.Header("X", 1, false) == Success("#" + (" " + "X"));
    assert "#" + (" " + "X") == "# X";
    var tail1 := [NewLineOp, TextOp(Line("hi"))];
    var tail2 := [TextOp(Line("hi"))];
    assert ops[1..] == tail1 && tail1[1..] == tail2 && tail2[1..] == [];
    assert EmittedAll(tail2[1..]) == Success([]);
    assert Emitted(tail2[0]) == Success(["hi"]);
    var hi: seq<string> := ["hi"];
    assert hi + [] == hi;
    assert EmittedAll(tail2) == Success(Emitted(tail2[0]).value + EmittedAll(tail2[1..]).value);
    assert Emitted(tail1[0]) == Success([""]);
    assert EmittedAll(tail1) == Success(Emitted(tail1[0]).value + EmittedAll(tail1[1..]).value);
    assert [""] + hi == ["", "hi"];
    assert Emitted(ops[0]) == Success(["# X"]);
    assert EmittedAll(ops) == Success(Emitted(ops[0]).value + EmittedAll(ops[1..]).value);
    assert ["# X"] + ["", "hi"] == ["# X", "", "hi"];
    var b := New(None);
    RunAppends(b, ops);
    assert b.output + ["# X", "", "hi"] == ["# X", "", "hi"];
  }

  /** A builder seeded with another one starts from that builder's output, which stays
      a prefix of its output through any later chain of calls. */
  lemma SeedKeepsPrefix(other: Builder, ops: seq<Op>)
    requires Run(New(Some(SeedBuilder(other))), ops).Success?
    ensures other.output <= Run(New(Some(SeedBuilder(other))), ops).value.output
    ensures GetOutput(New(Some(SeedBuilder(other)))) == GetOutput(other)
  {
    RunAppends(New(Some(SeedBuilder(other))), ops);
  }
}
