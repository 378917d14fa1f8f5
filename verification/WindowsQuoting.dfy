/** The command line that `distillation/src/windows-launcher.cs` assembles for CreateProcessW, and the way Microsoft's C
    runtime takes it apart again. */
module WindowsQuoting {
  import opened Wrappers

  /** A C# string: UTF-16 code units. */
  type Chars = seq<int>

  const NUL := 0
  const TAB := 9
  const SPACE := 32
  const QUOTE := 34
  const BACKSLASH := 92

  datatype Error = InvalidArgv | CommandLineTooLong

  function Slashes(n: nat): Chars {
    seq(n, _ => BACKSLASH)
  }

  // ---- writing ----

  /** The rest of a quoted argument, when `slashes` backslashes have been read and not yet written. */
  function QuoteFrom(value: Chars, slashes: nat): Chars {
    if value == [] then Slashes(slashes * 2) + [QUOTE]
    else if value[0] == BACKSLASH then QuoteFrom(value[1..], slashes + 1)
    else Slashes(if value[0] == QUOTE then slashes * 2 + 1 else slashes) + [value[0]] + QuoteFrom(value[1..], 0)
  }

  function Quoted(value: Chars): Chars {
    [QUOTE] + QuoteFrom(value, 0)
  }

  function Tail(args: seq<Chars>): Chars {
    if args == [] then [] else [SPACE] + Quoted(args[0]) + Tail(args[1..])
  }

  /** `Quote`. */
  method Quote(value: Chars) returns (result: Chars)
    ensures result == Quoted(value)
  {
    result := [QUOTE];
    var slashes := 0;
    for i := 0 to |value|
      invariant result + QuoteFrom(value[i..], slashes) == Quoted(value)
    {
      var c := value[i];
      assert value[i..][1..] == value[i + 1..];
      if c == BACKSLASH {
        slashes := slashes + 1;
      } else {
        result := result + Slashes(if c == QUOTE then slashes * 2 + 1 else slashes);
        slashes := 0;
        result := result + [c];
      }
      assert c != BACKSLASH ==> result + QuoteFrom(value[i + 1..], slashes) == Quoted(value);
    }
    result := result + Slashes(slashes * 2) + [QUOTE];
    assert value[|value|..] == [];
  }

  predicate HasNul(s: Chars) {
    NUL in s
  }

  /** The command line of `Execute`. */
  method CommandLine(executable: Chars, args: seq<Chars>) returns (r: Result<Chars, Error>)
    ensures r.Ok? ==> r.value == Quoted(executable) + Tail(args)
    ensures r.Ok? ==> |r.value| < 32767 && forall i | 0 <= i < |args| :: 0 !in args[i]
    ensures r == Err(InvalidArgv) <==> exists i :: 0 <= i < |args| && 0 in args[i]
    ensures r == Err(CommandLineTooLong) <==>
              (forall i | 0 <= i < |args| :: 0 !in args[i]) && |Quoted(executable) + Tail(args)| >= 32767
    ensures r.Ok? && 0 !in executable && 34 !in executable ==>
              Arguments(Terminated(r.value)) == [executable + Slashes(TrailingSlashes(executable))] + args
  {
    var command := Quote(executable);
    for i := 0 to |args|
      invariant command + Tail(args[i..]) == Quoted(executable) + Tail(args)
      invariant forall j | 0 <= j < i :: !HasNul(args[j])
    {
      if HasNul(args[i]) { return Err(InvalidArgv); }
      assert args[i..][1..] == args[i + 1..];
      var quoted := Quote(args[i]);
      command := command + [SPACE];
      command := command + quoted;
    }
    if |command| >= 32767 { return Err(CommandLineTooLong); }
    r := Ok(command);
    if !HasNul(executable) && QUOTE !in executable { CommandRoundTrip(executable, args); }
  }

  // ---- reading: "Parsing C command-line arguments" ----

  datatype Parsed = Read(argument: Chars, rest: Chars)

  /** The command line ends at the first NUL. */
  function Terminated(s: Chars): Chars {
    if s == [] || s[0] == NUL then [] else [s[0]] + Terminated(s[1..])
  }

  function LeadingSlashes(s: Chars): (n: nat)
    ensures n <= |s|
  {
    if s == [] || s[0] != BACKSLASH then 0 else 1 + LeadingSlashes(s[1..])
  }

  predicate Blank(c: int) {
    c == SPACE || c == TAB
  }

  function Prepend(s: Chars, p: Parsed): Parsed {
    Read(s + p.argument, p.rest)
  }

  /** What comes next in an argument: some characters and how the reading goes on, or its end. */
  datatype Piece = More(text: Chars, rest: Chars, quoted: bool) | Last(text: Chars, rest: Chars)

  /** Backslashes are literal, except before a double quote mark: there each pair stands for one, and an odd one makes
      the mark literal. Any other mark starts or ends a quoted part, in which blanks are literal and a doubled mark
      stands for one. */
  function NextPiece(s: Chars, quoted: bool): (p: Piece)
    ensures p.More? || (s != [] && (quoted || !Blank(s[0]))) ==> |p.rest| < |s|
    ensures |p.rest| <= |s|
  {
    var n := LeadingSlashes(s);
    var t := s[n..];
    if t == [] || (!quoted && Blank(t[0])) then Last(Slashes(n), t)
    else if t[0] != QUOTE then More(Slashes(n) + [t[0]], t[1..], quoted)
    else if n % 2 == 1 then More(Slashes(n / 2) + [QUOTE], t[1..], quoted)
    else if quoted && |t| > 1 && t[1] == QUOTE then More(Slashes(n / 2) + [QUOTE], t[2..], quoted)
    else More(Slashes(n / 2), t[1..], !quoted)
  }

  /** An argument after the program name. */
  function ReadArgument(s: Chars, quoted: bool): (p: Parsed)
    ensures |p.rest| <= |s|
    ensures s != [] && (quoted || !Blank(s[0])) ==> |p.rest| < |s|
    decreases |s|
  {
    match NextPiece(s, quoted)
    case Last(text, rest) => Read(text, rest)
    case More(text, rest, still) => Prepend(text, ReadArgument(rest, still))
  }

  /** The program name: double quote marks only switch between the two states, and backslashes are literal. */
  function ReadProgram(s: Chars, quoted: bool): (p: Parsed)
    ensures |p.rest| <= |s|
  {
    if s == [] || (!quoted && Blank(s[0])) then Read([], s)
    else if s[0] == QUOTE then ReadProgram(s[1..], !quoted)
    else Prepend([s[0]], ReadProgram(s[1..], quoted))
  }

  function ReadAll(s: Chars): seq<Chars>
    decreases |s|
  {
    if s == [] then []
    else if Blank(s[0]) then ReadAll(s[1..])
    else
      var p := ReadArgument(s, false);
      [p.argument] + ReadAll(p.rest)
  }

  function Arguments(s: Chars): seq<Chars> {
    var program := ReadProgram(s, false);
    [program.argument] + ReadAll(program.rest)
  }

  function TrailingSlashes(s: Chars): nat {
    if s == [] || s[|s| - 1] != BACKSLASH then 0 else 1 + TrailingSlashes(s[..|s| - 1])
  }

  // ---- round trips ----

  lemma {:induction false} SlashesLead(n: nat, rest: Chars)
    requires rest == [] || rest[0] != BACKSLASH
    ensures LeadingSlashes(Slashes(n) + rest) == n && (Slashes(n) + rest)[n..] == rest
  {
    if n == 0 {
      assert Slashes(0) + rest == rest;
    } else {
      assert Slashes(n) + rest == [BACKSLASH] + (Slashes(n - 1) + rest);
      SlashesLead(n - 1, rest);
    }
  }

  lemma ReadAtEnd(rest: Chars)
    requires rest == [] || rest[0] == SPACE
    ensures ReadArgument(rest, false) == Read([], rest)
  {
    assert LeadingSlashes(rest) == 0;
  }

  lemma PieceWithMark(slashes: nat, tail: Chars)
    ensures NextPiece(Slashes(slashes * 2 + 1) + ([QUOTE] + tail), true) == More(Slashes(slashes) + [QUOTE], tail, true)
  {
    SlashesLead(slashes * 2 + 1, [QUOTE] + tail);
  }

  lemma PlainPiece(slashes: nat, c: int, tail: Chars)
    requires c != QUOTE && c != BACKSLASH
    ensures NextPiece(Slashes(slashes) + ([c] + tail), true) == More(Slashes(slashes) + [c], tail, true)
  {
    SlashesLead(slashes, [c] + tail);
  }

  lemma ClosingPiece(slashes: nat, rest: Chars)
    requires rest == [] || rest[0] == SPACE
    ensures NextPiece(Slashes(slashes * 2) + ([QUOTE] + rest), true) == More(Slashes(slashes), rest, false)
  {
    SlashesLead(slashes * 2, [QUOTE] + rest);
  }

  lemma ReadClosing(slashes: nat, rest: Chars)
    requires rest == [] || rest[0] == SPACE
    ensures ReadArgument(Slashes(slashes * 2) + ([QUOTE] + rest), true) == Read(Slashes(slashes), rest)
  {
    ClosingPiece(slashes, rest);
    ReadAtEnd(rest);
    assert Slashes(slashes) + [] == Slashes(slashes);
  }

  /** Inside the quotes: what was written is read back, with the backslashes still to be written in front. */
  lemma {:induction false} ReadsBack(value: Chars, slashes: nat, rest: Chars)
    requires rest == [] || rest[0] == SPACE
    ensures ReadArgument(QuoteFrom(value, slashes) + rest, true) == Read(Slashes(slashes) + value, rest)
    decreases |value|
  {
    if value == [] {
      assert QuoteFrom(value, slashes) + rest == Slashes(slashes * 2) + ([QUOTE] + rest);
      ReadClosing(slashes, rest);
      assert Slashes(slashes) + value == Slashes(slashes);
    } else if value[0] == BACKSLASH {
      ReadsBack(value[1..], slashes + 1, rest);
      OneMoreSlash(slashes, value);
    } else {
      ReadsBack(value[1..], 0, rest);
      QuoteOne(value, slashes, rest);
      ReadOne(slashes, value[0], QuoteFrom(value[1..], 0) + rest);
      NoSlashes(slashes, value);
    }
  }

  lemma OneMoreSlash(slashes: nat, value: Chars)
    requires value != [] && value[0] == BACKSLASH
    ensures Slashes(slashes + 1) + value[1..] == Slashes(slashes) + value
  {
  }

  lemma NoSlashes(slashes: nat, value: Chars)
    requires value != []
    ensures Slashes(slashes) + [value[0]] + (Slashes(0) + value[1..]) == Slashes(slashes) + value
  {
  }

  function SlashesBefore(c: int, slashes: nat): nat {
    if c == QUOTE then slashes * 2 + 1 else slashes
  }

  lemma QuoteOne(value: Chars, slashes: nat, rest: Chars)
    requires value != [] && value[0] != BACKSLASH
    ensures QuoteFrom(value, slashes) + rest
         == Slashes(SlashesBefore(value[0], slashes)) + ([value[0]] + (QuoteFrom(value[1..], 0) + rest))
  {
  }

  lemma ReadOne(slashes: nat, c: int, tail: Chars)
    requires c != BACKSLASH
    ensures ReadArgument(Slashes(SlashesBefore(c, slashes)) + ([c] + tail), true)
         == Prepend(Slashes(slashes) + [c], ReadArgument(tail, true))
  {
    if c == QUOTE { PieceWithMark(slashes, tail); } else { PlainPiece(slashes, c, tail); }
  }

  lemma QuoteRoundTrip(value: Chars, rest: Chars)
    requires rest == [] || rest[0] == SPACE
    ensures ReadArgument(Quoted(value) + rest, false) == Read(value, rest)
  {
    var text := QuoteFrom(value, 0) + rest;
    assert Quoted(value) + rest == [QUOTE] + text;
    assert ([QUOTE] + text)[1..] == text;
    assert LeadingSlashes([QUOTE] + text) == 0;
    ReadsBack(value, 0, rest);
    assert Slashes(0) + value == value;
  }

  lemma ReadFirst(value: Chars, rest: Chars)
    requires rest == [] || rest[0] == SPACE
    ensures ReadAll([SPACE] + (Quoted(value) + rest)) == [value] + ReadAll(rest)
  {
    var text := Quoted(value) + rest;
    QuoteRoundTrip(value, rest);
    assert ([SPACE] + text)[1..] == text;
    assert ReadAll(text) == [value] + ReadAll(rest);
  }

  /** Any list of arguments is read back as it was. */
  lemma {:induction false} TailRoundTrip(args: seq<Chars>)
    ensures ReadAll(Tail(args)) == args
  {
    if args != [] {
      var rest := Tail(args[1..]);
      TailRoundTrip(args[1..]);
      QuoteRoundTrip(args[0], rest);
      ReadFirst(args[0], rest);
      Regroup([SPACE], Quoted(args[0]), rest);
      assert args == [args[0]] + args[1..];
    }
  }

  lemma {:induction false} NoNul(s: Chars)
    requires !HasNul(s)
    ensures Terminated(s) == s
  {
    if s != [] { NoNul(s[1..]); }
  }

  lemma {:induction false} QuotingAddsNoNul(value: Chars, slashes: nat)
    requires !HasNul(value)
    ensures !HasNul(QuoteFrom(value, slashes))
    decreases |value|
  {
    if value != [] {
      QuotingAddsNoNul(value[1..], if value[0] == BACKSLASH then slashes + 1 else 0);
    }
  }

  lemma {:induction false} TailHasNoNul(args: seq<Chars>)
    requires forall i | 0 <= i < |args| :: !HasNul(args[i])
    ensures !HasNul(Tail(args))
  {
    if args != [] {
      QuotingAddsNoNul(args[0], 0);
      TailHasNoNul(args[1..]);
    }
  }

  lemma {:induction false} TrailingAfter(s: Chars, c: int, tail: Chars)
    requires c != BACKSLASH
    ensures TrailingSlashes(s + [c] + tail) == TrailingSlashes(tail)
    decreases |tail|
  {
    if tail == [] {
      assert s + [c] + tail == s + [c];
    } else {
      var n := |tail| - 1;
      TrailingAfter(s, c, tail[..n]);
      assert (s + [c] + tail)[..|s| + 1 + n] == s + [c] + tail[..n];
    }
  }

  lemma {:induction false} TrailingAll(n: nat)
    ensures TrailingSlashes(Slashes(n)) == n
  {
    if n > 0 {
      TrailingAll(n - 1);
      assert Slashes(n)[..n - 1] == Slashes(n - 1);
    }
  }

  /** Without a quote mark inside, quoting only doubles the backslashes at the end. */
  lemma {:induction false} QuotedPlainly(value: Chars, slashes: nat)
    requires QUOTE !in value
    ensures QuoteFrom(value, slashes) == PlainForm(Slashes(slashes) + value)
    decreases |value|
  {
    if value == [] {
      assert Slashes(slashes) + value == Slashes(slashes);
      TrailingAll(slashes);
      assert Slashes(slashes * 2) == Slashes(slashes) + Slashes(slashes);
    } else if value[0] == BACKSLASH {
      QuotedPlainly(value[1..], slashes + 1);
      OneMoreSlash(slashes, value);
    } else {
      QuotedPlainly(value[1..], 0);
      QuotedCharacter(value, slashes);
    }
  }

  /** The form of a quoted value without a quote mark. */
  function PlainForm(s: Chars): Chars {
    s + Slashes(TrailingSlashes(s)) + [QUOTE]
  }

  lemma QuotedCharacter(value: Chars, slashes: nat)
    requires value != [] && value[0] != BACKSLASH && value[0] != QUOTE
    requires QuoteFrom(value[1..], 0) == PlainForm(Slashes(0) + value[1..])
    ensures QuoteFrom(value, slashes) == PlainForm(Slashes(slashes) + value)
  {
    var tail := value[1..];
    var t := TrailingSlashes(tail);
    assert Slashes(0) + tail == tail;
    QuotedOne(value, slashes, tail + Slashes(t) + [QUOTE]);
    TrailingAfter(Slashes(slashes), value[0], tail);
    FirstCharacter(Slashes(slashes), value, Slashes(t), [QUOTE]);
  }

  lemma QuotedOne(value: Chars, slashes: nat, quoted: Chars)
    requires value != [] && value[0] != BACKSLASH && value[0] != QUOTE && QuoteFrom(value[1..], 0) == quoted
    ensures QuoteFrom(value, slashes) == Slashes(slashes) + [value[0]] + quoted
  {
  }

  lemma FirstCharacter(before: Chars, value: Chars, after: Chars, end: Chars)
    requires value != []
    ensures before + value == before + [value[0]] + value[1..]
    ensures before + [value[0]] + (value[1..] + after + end) == before + value + after + end
  {
  }

  lemma {:induction false} ReadToMark(s: Chars, rest: Chars)
    requires QUOTE !in s && (rest == [] || Blank(rest[0]))
    ensures ReadProgram(s + [QUOTE] + rest, true) == Read(s, rest)
  {
    var text := s + [QUOTE] + rest;
    if s == [] {
      assert text[1..] == rest;
    } else {
      assert text[1..] == s[1..] + [QUOTE] + rest;
      ReadToMark(s[1..], rest);
    }
  }

  lemma ProgramRead(executable: Chars, rest: Chars)
    requires QUOTE !in executable && (rest == [] || Blank(rest[0]))
    ensures ReadProgram(Quoted(executable) + rest, false)
         == Read(executable + Slashes(TrailingSlashes(executable)), rest)
  {
    var s := executable + Slashes(TrailingSlashes(executable));
    QuotedPlainly(executable, 0);
    assert Slashes(0) + executable == executable;
    ReadToMark(s, rest);
    Regroup([QUOTE], s + [QUOTE], rest);
    OpeningMark(s + [QUOTE] + rest);
  }

  lemma Regroup(a: Chars, b: Chars, c: Chars)
    ensures a + b + c == a + (b + c)
  {
  }

  lemma OpeningMark(inside: Chars)
    ensures ReadProgram([QUOTE] + inside, false) == ReadProgram(inside, true)
  {
    assert ([QUOTE] + inside)[1..] == inside;
  }

  lemma {:induction false} NoMarkInProgram(s: Chars, quoted: bool)
    ensures QUOTE !in ReadProgram(s, quoted).argument
  {
    if s != [] && (quoted || !Blank(s[0])) {
      NoMarkInProgram(s[1..], if s[0] == QUOTE then !quoted else quoted);
    }
  }

  /** The program name follows simpler rules than those `Quote` is written for: it is read back exactly when it holds
      no double quote mark and does not end in a backslash. */
  lemma ProgramRoundTrip(executable: Chars, rest: Chars)
    requires rest == [] || Blank(rest[0])
    ensures ReadProgram(Quoted(executable) + rest, false).argument == executable
        <==> QUOTE !in executable && (executable == [] || executable[|executable| - 1] != BACKSLASH)
  {
    NoMarkInProgram(Quoted(executable) + rest, false);
    if QUOTE !in executable { ProgramRead(executable, rest); }
  }

  /** Nothing the caller lists is lost, split, merged or changed on its way to the new process. */
  lemma CommandRoundTrip(executable: Chars, args: seq<Chars>)
    requires !HasNul(executable) && QUOTE !in executable && forall i | 0 <= i < |args| :: !HasNul(args[i])
    ensures Arguments(Terminated(Quoted(executable) + Tail(args)))
         == [executable + Slashes(TrailingSlashes(executable))] + args
  {
    QuotingAddsNoNul(executable, 0);
    TailHasNoNul(args);
    NoNul(Quoted(executable) + Tail(args));
    ProgramRead(executable, Tail(args));
    TailRoundTrip(args);
  }

  /** A program name that ends in a backslash is read back with two. */
  lemma BackslashExample()
    ensures ReadProgram(Quoted([67, 92]), false).argument == [67, 92, 92]
    ensures Quoted([67, 92]) == [34, 67, 92, 92, 34]
    ensures Tail([[67]]) == [32, 34, 67, 34]
  {
    var executable := [67, BACKSLASH];
    assert executable[1..] == [92] && [92][1..] == [];
    assert QuoteFrom([92], 0) == Slashes(2) + [34];
    assert [67][1..] == [] && Slashes(0) == [] && Tail([[67]][1..]) == [];
    assert QuoteFrom([67], 0) == [67, 34];
    assert executable[..1] == [67] && executable[..1][..0] == [];
    assert TrailingSlashes(executable) == 1;
    ProgramRead(executable, []);
    assert Quoted(executable) + [] == Quoted(executable);
    assert executable + Slashes(1) == [67, BACKSLASH, BACKSLASH];
  }
}
