/** The duplicate-name scanner of `readReceipt` in `src/notice-receipts.mjs`: a pass over the tokens of a text that
    `JSON.parse` has accepted, which never builds the tree whose names it judges. */
module ReceiptScanner {
  import opened Wrappers

  // ---- string literals ----

  /** UTF-16 code units: escapes may write one half of a surrogate pair. */
  type Name = seq<int>

  function Units(c: char): Name {
    var code := c as int;
    if code < 0x1_0000 then [code]
    else [0xD800 + (code - 0x1_0000) / 0x400, 0xDC00 + (code - 0x1_0000) % 0x400]
  }

  /** An ASCII name. */
  function Ascii(s: string): Name {
    seq(|s|, i requires 0 <= i < |s| => s[i] as int)
  }

  function HexDigit(c: char): Option<nat> {
    if '0' <= c <= '9' then Some(c as int - '0' as int)
    else if 'a' <= c <= 'f' then Some(c as int - 'a' as int + 10)
    else if 'A' <= c <= 'F' then Some(c as int - 'A' as int + 10)
    else None
  }

  function HexUnit(s: string): Option<int>
    requires |s| == 4
  {
    var a, b, c, d := HexDigit(s[0]), HexDigit(s[1]), HexDigit(s[2]), HexDigit(s[3]);
    if a.Some? && b.Some? && c.Some? && d.Some?
    then Some(a.value * 4096 + b.value * 256 + c.value * 16 + d.value)
    else None
  }

  function SimpleEscape(c: char): Option<int> {
    match c
    case '"' => Some(34)
    case '\\' => Some(92)
    case '/' => Some(47)
    case 'b' => Some(8)
    case 'f' => Some(12)
    case 'n' => Some(10)
    case 'r' => Some(13)
    case 't' => Some(9)
    case _ => None
  }

  datatype Piece = Piece(units: Name, length: nat)

  /** The first character or escape of a literal. */
  function FirstPiece(lit: string): (p: Option<Piece>)
    requires lit != ""
    ensures p.Some? ==> 0 < p.value.length <= |lit|
  {
    if lit[0] == '"' || lit[0] < ' ' then None
    else if lit[0] != '\\' then Some(Piece(Units(lit[0]), 1))
    else if |lit| >= 6 && lit[1] == 'u' then
      var unit := HexUnit(lit[2..6]);
      if unit.Some? then Some(Piece([unit.value], 6)) else None
    else if |lit| >= 2 && SimpleEscape(lit[1]).Some? then Some(Piece([SimpleEscape(lit[1]).value], 2))
    else None
  }

  /** What the characters between the quotes stand for (section 7 of RFC 8259); None when they are no string. */
  function Decode(lit: string): Option<Name> {
    if lit == "" then Some([])
    else
      var first := FirstPiece(lit);
      if first == None then None
      else
        var rest := Decode(lit[first.value.length..]);
        if rest.Some? then Some(first.value.units + rest.value) else None
  }

  // ---- what literals stand for ----

  const LOWER_DIGITS := "0123456789abcdef"
  const UPPER_DIGITS := "0123456789ABCDEF"

  /** A code unit as four hexadecimal digits. */
  datatype Digits = Digits(a: nat, b: nat, c: nat, d: nat)

  predicate IsHex(u: Digits) {
    u.a < 16 && u.b < 16 && u.c < 16 && u.d < 16
  }

  function UnitOf(u: Digits): int {
    u.a * 4096 + u.b * 256 + u.c * 16 + u.d
  }

  function UnitsOf(us: seq<Digits>): Name {
    seq(|us|, i requires 0 <= i < |us| => UnitOf(us[i]))
  }

  /** An escape of one unit. */
  function Escape(u: Digits, digits: string): string
    requires IsHex(u) && |digits| == 16
  {
    ['\\', 'u', digits[u.a], digits[u.b], digits[u.c], digits[u.d]]
  }

  /** A name with every unit escaped. */
  function Escaped(us: seq<Digits>, digits: string): string
    requires (forall i | 0 <= i < |us| :: IsHex(us[i])) && |digits| == 16
  {
    if us == [] then "" else Escape(us[0], digits) + Escaped(us[1..], digits)
  }

  lemma DigitValue(d: nat)
    requires d < 16
    ensures HexDigit(LOWER_DIGITS[d]) == Some(d) && HexDigit(UPPER_DIGITS[d]) == Some(d)
  {
  }

  lemma EscapeDecodes(u: Digits, digits: string)
    requires IsHex(u) && (digits == LOWER_DIGITS || digits == UPPER_DIGITS)
    ensures FirstPiece(Escape(u, digits)) == Some(Piece([UnitOf(u)], 6))
  {
    DigitValue(u.a);
    DigitValue(u.b);
    DigitValue(u.c);
    DigitValue(u.d);
    var hex := [digits[u.a], digits[u.b], digits[u.c], digits[u.d]];
    assert HexUnit(hex) == Some(UnitOf(u));
    assert Escape(u, digits)[2..6] == hex;
  }

  lemma FirstOfBoth(a: string, b: string)
    requires a != "" && FirstPiece(a).Some?
    ensures FirstPiece(a + b) == FirstPiece(a)
  {
    if |a| >= 6 { assert (a + b)[2..6] == a[2..6]; }
  }

  /** Literals are read piece by piece. */
  lemma {:induction false} DecodeOfBoth(a: string, b: string)
    requires Decode(a).Some? && Decode(b).Some?
    ensures Decode(a + b) == Some(Decode(a).value + Decode(b).value)
    decreases |a|
  {
    if a == "" {
      assert a + b == b;
      assert [] + Decode(b).value == Decode(b).value;
    } else {
      var first := FirstPiece(a).value;
      DecodeOfBoth(a[first.length..], b);
      DecodeStep(a, b, Decode(a[first.length..]).value, Decode(b).value);
    }
  }

  lemma DecodeStep(a: string, b: string, tail: Name, more: Name)
    requires a != "" && FirstPiece(a).Some? && Decode(a[FirstPiece(a).value.length..] + b) == Some(tail + more)
    ensures Decode(a + b) == Some(FirstPiece(a).value.units + tail + more)
  {
    var first := FirstPiece(a).value;
    FirstOfBoth(a, b);
    assert (a + b)[first.length..] == a[first.length..] + b;
    assert first.units + (tail + more) == first.units + tail + more;
  }

  lemma OnePiece(lit: string, units: Name)
    requires lit != "" && FirstPiece(lit) == Some(Piece(units, |lit|))
    ensures Decode(lit) == Some(units)
  {
    assert lit[|lit|..] == "" && units + [] == units;
  }

  lemma PieceThenRest(first: string, unit: int, rest: string, tail: Name)
    requires first != "" && FirstPiece(first) == Some(Piece([unit], |first|)) && Decode(rest) == Some(tail)
    ensures Decode(first + rest) == Some([unit] + tail)
  {
    OnePiece(first, [unit]);
    DecodeOfBoth(first, rest);
  }

  /** Every name can be spelled with escapes alone, in either case, and is read back as it was. */
  lemma {:induction false} EscapedRoundTrip(us: seq<Digits>, digits: string)
    requires (forall i | 0 <= i < |us| :: IsHex(us[i])) && (digits == LOWER_DIGITS || digits == UPPER_DIGITS)
    ensures Decode(Escaped(us, digits)) == Some(UnitsOf(us))
  {
    if us != [] {
      EscapeDecodes(us[0], digits);
      EscapedRoundTrip(us[1..], digits);
      PieceThenRest(Escape(us[0], digits), UnitOf(us[0]), Escaped(us[1..], digits), UnitsOf(us[1..]));
      assert UnitsOf(us) == [UnitOf(us[0])] + UnitsOf(us[1..]);
    } else {
      assert UnitsOf(us) == [];
    }
  }

  /** A character stands for its UTF-16 code units, and a short escape for the character it names. */
  lemma CharacterStandsFor(c: char)
    requires c >= ' ' && c != '"' && c != '\\'
    ensures Decode([c]).Some?
    ensures var units, code := Decode([c]).value, c as int;
            if code < 0x1_0000 then units == [code]
            else && |units| == 2 && 0xD800 <= units[0] < 0xDC00 && 0xDC00 <= units[1] < 0xE000
                 && code == 0x1_0000 + (units[0] - 0xD800) * 0x400 + (units[1] - 0xDC00)
  {
    OnePiece([c], Units(c));
  }

  lemma ShortEscapes()
    ensures Decode("\\\"") == Some([34]) && Decode("\\\\") == Some([92]) && Decode("\\/") == Some([47])
    ensures Decode("\\b") == Some([8]) && Decode("\\f") == Some([12]) && Decode("\\n") == Some([10])
    ensures Decode("\\r") == Some([13]) && Decode("\\t") == Some([9])
  {
    OnePiece("\\\"", [34]);
    OnePiece("\\\\", [92]);
    OnePiece("\\/", [47]);
    OnePiece("\\b", [8]);
    OnePiece("\\f", [12]);
    OnePiece("\\n", [10]);
    OnePiece("\\r", [13]);
    OnePiece("\\t", [9]);
  }

  // ---- texts ----

  /** A parsed value together with the spelling it had in the text. */
  datatype Value =
    | Atom(spelling: string)
    | Text(lit: string)
    | Array(inside: string, items: seq<Item>)
    | Object(inside: string, members: seq<Member>)

  datatype Item = Item(before: string, value: Value, after: string)

  datatype Member = Member(before: string, name: string, afterName: string, beforeValue: string, value: Value, after: string)

  datatype Document = Document(before: string, value: Value, after: string)

  predicate Space(s: string) {
    forall i | 0 <= i < |s| :: s[i] == ' ' || s[i] == '\t' || s[i] == '\n' || s[i] == '\r'
  }

  /** The characters of numbers, `true`, `false` and `null`, and more. */
  predicate AtomText(s: string) {
    forall i | 0 <= i < |s| ::
      '0' <= s[i] <= '9' || 'a' <= s[i] <= 'z' || 'A' <= s[i] <= 'Z' || s[i] == '+' || s[i] == '-' || s[i] == '.'
  }

  predicate ValueOk(v: Value) {
    match v
    case Atom(spelling) => AtomText(spelling)
    case Text(lit) => Decode(lit).Some?
    case Array(inside, items) => Space(inside) && forall i | 0 <= i < |items| :: ItemOk(items[i])
    case Object(inside, members) => Space(inside) && forall i | 0 <= i < |members| :: MemberOk(members[i])
  }

  predicate ItemOk(item: Item) {
    Space(item.before) && ValueOk(item.value) && Space(item.after)
  }

  predicate MemberOk(m: Member) {
    && Space(m.before) && Decode(m.name).Some? && Space(m.afterName) && Space(m.beforeValue) && ValueOk(m.value)
    && Space(m.after)
  }

  predicate DocumentOk(d: Document) {
    Space(d.before) && ValueOk(d.value) && Space(d.after)
  }

  function Quoted(lit: string): string {
    "\"" + lit + "\""
  }

  /** The text of a value (section 2 of RFC 8259). */
  function Spelled(v: Value): string {
    match v
    case Atom(spelling) => spelling
    case Text(lit) => Quoted(lit)
    case Array(inside, items) => "[" + (if items == [] then inside else SpelledItems(items)) + "]"
    case Object(inside, members) => "{" + (if members == [] then inside else SpelledMembers(members)) + "}"
  }

  function SpelledItems(items: seq<Item>): string
    requires items != []
  {
    var first := items[0].before + Spelled(items[0].value) + items[0].after;
    if |items| == 1 then first else first + "," + SpelledItems(items[1..])
  }

  function SpelledMembers(members: seq<Member>): string
    requires members != []
  {
    var m := members[0];
    var first := m.before + Quoted(m.name) + m.afterName + ":" + m.beforeValue + Spelled(m.value) + m.after;
    if |members| == 1 then first else first + "," + SpelledMembers(members[1..])
  }

  function SpelledDocument(d: Document): string {
    d.before + Spelled(d.value) + d.after
  }

  // ---- what the scanner is for ----

  const MAX_DEPTH := 16

  function Max(a: nat, b: nat): nat {
    if a < b then b else a
  }

  /** How many arrays and objects lie around the innermost value, this one included. */
  function Nesting(v: Value): nat {
    match v
    case Atom(_) => 0
    case Text(_) => 0
    case Array(_, items) => 1 + NestingOfItems(items)
    case Object(_, members) => 1 + NestingOfMembers(members)
  }

  function NestingOfItems(items: seq<Item>): nat {
    if items == [] then 0 else Max(Nesting(items[0].value), NestingOfItems(items[1..]))
  }

  function NestingOfMembers(members: seq<Member>): nat {
    if members == [] then 0 else Max(Nesting(members[0].value), NestingOfMembers(members[1..]))
  }

  function ForbiddenNames(): set<Name> {
    {Ascii("__proto__"), Ascii("constructor"), Ascii("prototype")}
  }

  /** At no depth does an object repeat a name, however it is spelled, or use a forbidden one. */
  predicate NamesGood(v: Value) {
    match v
    case Atom(_) => true
    case Text(_) => true
    case Array(_, items) => forall i | 0 <= i < |items| :: NamesGood(items[i].value)
    case Object(_, members) =>
      && (forall i | 0 <= i < |members| :: NamesGood(members[i].value))
      && var names := NamesOf(members);
         && (forall i | 0 <= i < |names| ::
               names[i] != Ascii("__proto__") && names[i] != Ascii("constructor") && names[i] != Ascii("prototype"))
         && (forall i, j | 0 <= i < j < |names| :: names[i] != names[j])
  }

  function NamesOf(members: seq<Member>): seq<Name> {
    seq(|members|, i requires 0 <= i < |members| => NameOf(members[i].name))
  }

  function NameOf(lit: string): Name {
    match Decode(lit)
    case Some(name) => name
    case None => []
  }

  // ---- the scanner ----

  predicate LineTerminator(c: char) {
    c == '\n' || c == '\r' || c as int == 0x2028 || c as int == 0x2029
  }

  /** The class `\s` of JavaScript's regular expressions. */
  predicate Blank(c: char) {
    var u := c as int;
    || 9 <= u <= 13 || u == 32 || u == 0xA0 || u == 0x1680 || 0x2000 <= u <= 0x200A || u == 0x2028 || u == 0x2029
    || u == 0x202F || u == 0x205F || u == 0x3000 || u == 0xFEFF
  }

  /** After an opening quote: how many characters the rest of the string token takes, if it is one. */
  function StringLength(text: string): (n: Option<nat>)
    ensures n.Some? ==> 0 < n.value <= |text| && text[n.value - 1] == '"'
  {
    if text == "" then None
    else if text[0] == '"' then Some(1)
    else if text[0] != '\\' then Plus(1, StringLength(text[1..]))
    else if |text| == 1 || LineTerminator(text[1]) then None
    else Plus(2, StringLength(text[2..]))
  }

  function Plus(k: nat, n: Option<nat>): Option<nat> {
    if n.Some? then Some(k + n.value) else None
  }

  predicate ColonFollows(text: string) {
    text != "" && (text[0] == ':' || (Blank(text[0]) && ColonFollows(text[1..])))
  }

  /** What becomes of the stack of name sets after one token; None is the scanner's refusal. */
  function OpenBracket(stack: seq<set<Name>>): Option<seq<set<Name>>> {
    if |stack| >= MAX_DEPTH then None else Some(stack + [{}])
  }

  function CloseBracket(stack: seq<set<Name>>): seq<set<Name>> {
    if stack == [] then [] else stack[..|stack| - 1]
  }

  function AddName(stack: seq<set<Name>>, lit: string): Option<seq<set<Name>>> {
    var name := Decode(lit);
    if name == None || stack == [] then None
    else
      var names := stack[|stack| - 1];
      if name.value in names || name.value in ForbiddenNames() then None
      else Some(stack[..|stack| - 1] + [names + {name.value}])
  }

  /** The loop over the tokens, from a suffix of the text and a stack to the verdict. */
  predicate Scan(text: string, stack: seq<set<Name>>)
    decreases |text|
  {
    if text == "" then true
    else if text[0] == '{' || text[0] == '[' then
      var next := OpenBracket(stack);
      next.Some? && Scan(text[1..], next.value)
    else if text[0] == '}' || text[0] == ']' then Scan(text[1..], CloseBracket(stack))
    else if text[0] == '"' && StringLength(text[1..]).Some? then
      var n := StringLength(text[1..]).value;
      if ColonFollows(text[1 + n..]) then
        var next := AddName(stack, text[1..n]);
        next.Some? && Scan(text[1 + n..], next.value)
      else Scan(text[1 + n..], stack)
    else Scan(text[1..], stack)
  }

  /** The scan of `readReceipt`. */
  method AcceptsReceipt(text: string) returns (ok: bool)
    ensures ok == Scan(text, [])
    ensures forall d: Document | DocumentOk(d) && SpelledDocument(d) == text ::
              ok <==> Nesting(d.value) <= 16 && NamesGood(d.value)
  {
    AcceptsEverySpelling(text);
    var stack: seq<set<Name>> := [];
    var rest := text;
    while rest != ""
      invariant Scan(text, []) == Scan(rest, stack)
      decreases |rest|
    {
      var c := rest[0];
      if c == '{' || c == '[' {
        if |stack| >= MAX_DEPTH { return false; }
        stack := stack + [{}];
        rest := rest[1..];
      } else if c == '}' || c == ']' {
        stack := CloseBracket(stack);
        rest := rest[1..];
      } else if c == '"' && StringLength(rest[1..]).Some? {
        var n := StringLength(rest[1..]).value;
        if ColonFollows(rest[1 + n..]) {
          var name := Decode(rest[1..n]);
          if name == None || stack == [] || name.value in stack[|stack| - 1] || name.value in ForbiddenNames() { return false; }
          stack := stack[..|stack| - 1] + [stack[|stack| - 1] + {name.value}];
        }
        rest := rest[1 + n..];
      } else {
        rest := rest[1..];
      }
    }
    ok := true;
  }

  // ---- the scanner is right ----

  /** Characters that begin no token. */
  predicate Plain(s: string) {
    forall i | 0 <= i < |s| :: s[i] != '{' && s[i] != '}' && s[i] != '[' && s[i] != ']' && s[i] != '"'
  }

  lemma {:induction false} SkipPlain(s: string, rest: string, stack: seq<set<Name>>)
    requires Plain(s)
    ensures Scan(s + rest, stack) == Scan(rest, stack)
  {
    if s == "" {
      assert s + rest == rest;
    } else {
      assert (s + rest)[0] == s[0] && (s + rest)[1..] == s[1..] + rest;
      SkipPlain(s[1..], rest, stack);
    }
  }

  lemma SkipOne(c: char, rest: string)
    requires StringLength(rest).Some? && c != '"' && c != '\\'
    ensures StringLength([c] + rest) == Some(1 + StringLength(rest).value)
  {
    assert ([c] + rest)[1..] == rest;
  }

  lemma SkipEscape(c: char, rest: string)
    requires StringLength(rest).Some? && !LineTerminator(c)
    ensures StringLength(['\\', c] + rest) == Some(2 + StringLength(rest).value)
  {
    assert (['\\', c] + rest)[2..] == rest;
  }

  lemma SkipHex(hex: string, rest: string)
    requires |hex| == 4 && (forall i | 0 <= i < 4 :: hex[i] != '"' && hex[i] != '\\') && StringLength(rest).Some?
    ensures StringLength(['\\', 'u'] + (hex + rest)) == Some(6 + StringLength(rest).value)
  {
    SkipOne(hex[3], rest);
    SkipOne(hex[2], [hex[3]] + rest);
    SkipOne(hex[1], [hex[2]] + ([hex[3]] + rest));
    SkipOne(hex[0], [hex[1]] + ([hex[2]] + ([hex[3]] + rest)));
    assert hex + rest == [hex[0]] + ([hex[1]] + ([hex[2]] + ([hex[3]] + rest)));
    SkipEscape('u', hex + rest);
  }

  lemma HexDigitsArePlain(hex: string)
    requires |hex| == 4 && HexUnit(hex).Some?
    ensures forall i | 0 <= i < 4 :: hex[i] != '"' && hex[i] != '\\'
  {
  }

  predicate PieceShape(piece: string) {
    || (|piece| == 1 && piece[0] != '"' && piece[0] != '\\')
    || (|piece| == 2 && piece[0] == '\\' && !LineTerminator(piece[1]))
    || (|piece| == 6 && piece[..2] == "\\u" && HexUnit(piece[2..]).Some?)
  }

  lemma PiecesHaveShape(lit: string)
    requires lit != "" && FirstPiece(lit).Some?
    ensures PieceShape(lit[..FirstPiece(lit).value.length])
  {
    if FirstPiece(lit).value.length == 6 {
      assert lit[..6][2..] == lit[2..6] && lit[..6][..2] == [lit[0], lit[1]];
    }
  }

  lemma SkipPiece(piece: string, rest: string)
    requires PieceShape(piece) && StringLength(rest).Some?
    ensures StringLength(piece + rest) == Some(|piece| + StringLength(rest).value)
  {
    if |piece| == 1 {
      assert piece == [piece[0]];
      SkipOne(piece[0], rest);
    } else if |piece| == 2 {
      assert piece == ['\\', piece[1]];
      SkipEscape(piece[1], rest);
    } else {
      HexDigitsArePlain(piece[2..]);
      assert piece + rest == ['\\', 'u'] + (piece[2..] + rest);
      SkipHex(piece[2..], rest);
    }
  }

  lemma SplitAt(lit: string, n: nat, end: string)
    requires n <= |lit|
    ensures lit + end == lit[..n] + (lit[n..] + end)
  {
    assert lit == lit[..n] + lit[n..];
  }

  /** The string token ends at the quote that ends the literal. */
  lemma {:induction false} LiteralLength(lit: string, rest: string)
    requires Decode(lit).Some?
    ensures StringLength(lit + ("\"" + rest)) == Some(|lit| + 1)
    decreases |lit|
  {
    var end := "\"" + rest;
    if lit == "" {
      assert lit + end == end;
    } else {
      LiteralLength(lit[FirstPiece(lit).value.length..], rest);
      LengthStep(lit, end);
    }
  }

  lemma LengthStep(lit: string, end: string)
    requires lit != "" && FirstPiece(lit).Some? && StringLength(lit[FirstPiece(lit).value.length..] + end).Some?
    ensures var n := FirstPiece(lit).value.length; StringLength(lit + end) == Some(n + StringLength(lit[n..] + end).value)
  {
    var n := FirstPiece(lit).value.length;
    SplitAt(lit, n, end);
    PiecesHaveShape(lit);
    SkipPiece(lit[..n], lit[n..] + end);
  }

  lemma ScanLiteral(lit: string, rest: string, stack: seq<set<Name>>)
    requires Decode(lit).Some?
    ensures Scan(Quoted(lit) + rest, stack) ==
            if ColonFollows(rest) then
              AddName(stack, lit).Some? && Scan(rest, AddName(stack, lit).value)
            else Scan(rest, stack)
  {
    var text := Quoted(lit) + rest;
    LiteralLength(lit, rest);
    assert text[1..] == lit + ("\"" + rest);
    assert text[1..|lit| + 1] == lit && text[|lit| + 2..] == rest;
  }

  lemma {:induction false} ColonAfterSpace(space: string, rest: string)
    requires Space(space)
    ensures ColonFollows(space + rest) == ColonFollows(rest)
  {
    if space == "" {
      assert space + rest == rest;
    } else {
      assert (space + rest)[1..] == space[1..] + rest;
      ColonAfterSpace(space[1..], rest);
    }
  }

  lemma ScanOpen(bracket: string, rest: string, stack: seq<set<Name>>)
    requires bracket == "[" || bracket == "{"
    ensures Scan(bracket + rest, stack) <==> |stack| < MAX_DEPTH && Scan(rest, stack + [{}])
  {
    assert (bracket + rest)[1..] == rest;
  }

  lemma ScanClose(bracket: string, rest: string, stack: seq<set<Name>>, names: set<Name>)
    requires bracket == "]" || bracket == "}"
    ensures Scan(bracket + rest, stack + [names]) == Scan(rest, stack)
    ensures !ColonFollows(bracket + rest)
  {
    assert (bracket + rest)[1..] == rest;
    assert CloseBracket(stack + [names]) == stack;
  }

  /** A text that no colon follows is read as one step: it is accepted on its own terms (`fits`), and leaves the stack
      as it was. */
  ghost predicate ReadAs(text: string, rest: string, stack: seq<set<Name>>, fits: bool) {
    Scan(text + rest, stack) <==> fits && Scan(rest, stack)
  }

  lemma {:induction false} ScanValue(v: Value, rest: string, stack: seq<set<Name>>)
    requires ValueOk(v) && |stack| <= MAX_DEPTH && !ColonFollows(rest)
    ensures ReadAs(Spelled(v), rest, stack, |stack| + Nesting(v) <= MAX_DEPTH && NamesGood(v))
    decreases v, 1
  {
    match v
    case Atom(spelling) => SkipPlain(spelling, rest, stack);
    case Text(lit) => ScanLiteral(lit, rest, stack);
    case Array(inside, items) => ScanArray(v, rest, stack);
    case Object(inside, members) => ScanObject(v, rest, stack);
  }

  lemma {:induction false} ScanArray(v: Value, rest: string, stack: seq<set<Name>>)
    requires v.Array? && ValueOk(v) && |stack| <= MAX_DEPTH
    ensures ReadAs(Spelled(v), rest, stack, |stack| + Nesting(v) <= MAX_DEPTH && NamesGood(v))
    decreases v, 0
  {
    var body := if v.items == [] then v.inside else SpelledItems(v.items);
    assert Spelled(v) + rest == "[" + (body + ("]" + rest));
    ScanOpen("[", body + ("]" + rest), stack);
    ScanClose("]", rest, stack, {});
    if v.items == [] {
      SkipPlain(v.inside, "]" + rest, stack + [{}]);
      assert Nesting(v) == 1 && NamesGood(v);
    } else if |stack| < MAX_DEPTH {
      ScanItems(v.items, "]" + rest, stack + [{}]);
    }
  }

  lemma ObjectNames(v: Value)
    requires v.Object?
    ensures NamesGood(v) <==> MembersGood(v.members) && MayFollow(v.members, {})
    ensures v.members == [] ==> NamesGood(v) && Nesting(v) == 1
  {
    assert {} + ForbiddenNames() == ForbiddenNames();
  }

  lemma {:induction false} ScanObject(v: Value, rest: string, stack: seq<set<Name>>)
    requires v.Object? && ValueOk(v) && |stack| <= MAX_DEPTH
    ensures ReadAs(Spelled(v), rest, stack, |stack| + Nesting(v) <= MAX_DEPTH && NamesGood(v))
    decreases v, 0
  {
    var body := if v.members == [] then v.inside else SpelledMembers(v.members);
    assert Spelled(v) + rest == "{" + (body + ("}" + rest));
    ScanOpen("{", body + ("}" + rest), stack);
    ScanClose("}", rest, stack, {});
    ObjectNames(v);
    if v.members == [] {
      SkipPlain(v.inside, "}" + rest, stack + [{}]);
    } else if |stack| < MAX_DEPTH {
      ScanMembers(v.members, rest, stack, {});
    }
  }

  predicate ItemsGood(items: seq<Item>) {
    forall i | 0 <= i < |items| :: NamesGood(items[i].value)
  }

  predicate MembersGood(members: seq<Member>) {
    forall i | 0 <= i < |members| :: NamesGood(members[i].value)
  }

  lemma ItemsText(items: seq<Item>, end: string)
    requires items != []
    ensures var after := if |items| == 1 then end else "," + (SpelledItems(items[1..]) + end);
            SpelledItems(items) + end == items[0].before + (Spelled(items[0].value) + (items[0].after + after))
  {
    var before, value, space := items[0].before, Spelled(items[0].value), items[0].after;
    if |items| == 1 {
      Regroup(before, value, space, end);
    } else {
      var more := SpelledItems(items[1..]);
      Regroup(before + value + space, ",", more, end);
      Regroup(before, value, space, "," + (more + end));
    }
  }

  lemma Regroup(a: string, b: string, c: string, d: string)
    ensures a + b + c + d == a + (b + (c + d))
  {
  }

  lemma {:induction false} ScanItems(items: seq<Item>, end: string, stack: seq<set<Name>>)
    requires items != [] && (forall i | 0 <= i < |items| :: ItemOk(items[i])) && |stack| <= MAX_DEPTH && !ColonFollows(end)
    ensures ReadAs(SpelledItems(items), end, stack, |stack| + NestingOfItems(items) <= MAX_DEPTH && ItemsGood(items))
    decreases items, 0
  {
    var item := items[0];
    var after := if |items| == 1 then end else "," + (SpelledItems(items[1..]) + end);
    ItemsText(items, end);
    SkipPlain(item.before, Spelled(item.value) + (item.after + after), stack);
    ColonAfterSpace(item.after, after);
    ScanValue(item.value, item.after + after, stack);
    SkipPlain(item.after, after, stack);
    assert items == [item] + items[1..];
    if |items| > 1 {
      SkipPlain(",", SpelledItems(items[1..]) + end, stack);
      ScanItems(items[1..], end, stack);
    }
  }

  /** The names are distinct, and none is taken. */
  predicate NewNames(names: seq<Name>, taken: set<Name>) {
    && (forall i | 0 <= i < |names| :: names[i] !in taken)
    && (forall i, j | 0 <= i < j < |names| :: names[i] != names[j])
  }

  lemma NewNamesStep(names: seq<Name>, taken: set<Name>)
    requires names != []
    ensures NewNames(names, taken) <==> names[0] !in taken && NewNames(names[1..], taken + {names[0]})
  {
    var tail := names[1..];
    if names[0] !in taken && NewNames(tail, taken + {names[0]}) {
      forall i, j | 0 <= i < j < |names| ensures names[i] != names[j] {
        assert names[j] == tail[j - 1];
        if i > 0 { assert names[i] == tail[i - 1]; }
      }
    }
  }

  predicate MayFollow(members: seq<Member>, seen: set<Name>) {
    NewNames(NamesOf(members), seen + ForbiddenNames())
  }

  lemma MayFollowStep(members: seq<Member>, seen: set<Name>)
    requires members != []
    ensures var name := NameOf(members[0].name);
            MayFollow(members, seen) <==> name !in seen && name !in ForbiddenNames() && MayFollow(members[1..], seen + {name})
  {
    var name, forbidden := NameOf(members[0].name), ForbiddenNames();
    NewNamesStep(NamesOf(members), seen + forbidden);
    assert NamesOf(members)[1..] == NamesOf(members[1..]);
    assert seen + forbidden + {name} == seen + {name} + forbidden;
  }

  function TextAfterName(members: seq<Member>, end: string): string
    requires members != []
  {
    var m := members[0];
    ":" + (m.beforeValue + (Spelled(m.value) + (m.after +
      if |members| == 1 then end else "," + (SpelledMembers(members[1..]) + end))))
  }

  lemma MembersText(members: seq<Member>, end: string)
    requires members != []
    ensures var m := members[0];
            SpelledMembers(members) + end == m.before + (Quoted(m.name) + (m.afterName + TextAfterName(members, end)))
  {
    var m := members[0];
    var name, value := m.before + Quoted(m.name) + m.afterName, Spelled(m.value);
    var after := if |members| == 1 then end else "," + (SpelledMembers(members[1..]) + end);
    var first := name + ":" + m.beforeValue + value + m.after;
    if |members| > 1 { Regroup(first, ",", SpelledMembers(members[1..]), end); }
    assert SpelledMembers(members) + end == first + after;
    Regroup(name + ":" + m.beforeValue, value, m.after, after);
    Regroup(name, ":", m.beforeValue, value + (m.after + after));
    Regroup(m.before, Quoted(m.name), m.afterName, TextAfterName(members, end));
  }

  lemma {:induction false} ScanMembers(members: seq<Member>, rest: string, stack: seq<set<Name>>, seen: set<Name>)
    requires members != [] && (forall i | 0 <= i < |members| :: MemberOk(members[i])) && |stack| < MAX_DEPTH
    ensures Scan(SpelledMembers(members) + ("}" + rest), stack + [seen]) <==>
            |stack| + 1 + NestingOfMembers(members) <= MAX_DEPTH && MayFollow(members, seen) && MembersGood(members)
            && Scan(rest, stack)
    decreases members, 1
  {
    var m, end := members[0], "}" + rest;
    var colon := TextAfterName(members, end);
    MembersText(members, end);
    SkipPlain(m.before, Quoted(m.name) + (m.afterName + colon), stack + [seen]);
    ColonAfterSpace(m.afterName, colon);
    ScanLiteral(m.name, m.afterName + colon, stack + [seen]);
    MayFollowStep(members, seen);
    var name := NameOf(m.name);
    if name !in seen && name !in ForbiddenNames() {
      assert AddName(stack + [seen], m.name) == Some(stack + [seen + {name}]);
      SkipPlain(m.afterName, colon, stack + [seen + {name}]);
      ScanRestOfMembers(members, rest, stack, seen + {name});
    }
  }

  lemma MembersStep(members: seq<Member>, seen: set<Name>)
    requires members != []
    ensures var v, tail := members[0].value, members[1..];
            && NestingOfMembers(members) == Max(Nesting(v), NestingOfMembers(tail))
            && (MembersGood(members) <==> NamesGood(v) && MembersGood(tail))
            && (tail == [] ==> NestingOfMembers(tail) == 0 && MayFollow(tail, seen) && MembersGood(tail))
  {
    assert members == [members[0]] + members[1..];
  }

  lemma {:induction false} ScanRestOfMembers(members: seq<Member>, rest: string, stack: seq<set<Name>>, seen: set<Name>)
    requires members != [] && (forall i | 0 <= i < |members| :: MemberOk(members[i])) && |stack| < MAX_DEPTH
    ensures Scan(TextAfterName(members, "}" + rest), stack + [seen]) <==>
            |stack| + 1 + NestingOfMembers(members) <= MAX_DEPTH && MayFollow(members[1..], seen) && MembersGood(members)
            && Scan(rest, stack)
    decreases members, 0
  {
    var m, end, inner := members[0], "}" + rest, stack + [seen];
    var after := if |members| == 1 then end else "," + (SpelledMembers(members[1..]) + end);
    var value := Spelled(m.value) + (m.after + after);
    SkipPlain(":", m.beforeValue + value, inner);
    SkipPlain(m.beforeValue, value, inner);
    ScanClose("}", rest, stack, seen);
    ColonAfterSpace(m.after, after);
    ScanValue(m.value, m.after + after, inner);
    SkipPlain(m.after, after, inner);
    MembersStep(members, seen);
    if |members| > 1 {
      SkipPlain(",", SpelledMembers(members[1..]) + end, inner);
      ScanMembers(members[1..], rest, stack, seen);
    }
  }

  /** For every text of a JSON value: the scan accepts it exactly when no object at any depth repeats a name or uses a
      forbidden one, and arrays and objects nest at most 16 deep. */
  lemma AcceptsExactly(d: Document)
    requires DocumentOk(d)
    ensures Scan(SpelledDocument(d), []) <==> Nesting(d.value) <= 16 && NamesGood(d.value)
  {
    assert SpelledDocument(d) == d.before + (Spelled(d.value) + d.after);
    SkipPlain(d.before, Spelled(d.value) + d.after, []);
    assert d.after + "" == d.after;
    ColonAfterSpace(d.after, "");
    ScanValue(d.value, d.after, []);
    SkipPlain(d.after, "", []);
  }

  lemma AcceptsEverySpelling(text: string)
    ensures forall d: Document | DocumentOk(d) && SpelledDocument(d) == text ::
              Scan(text, []) <==> Nesting(d.value) <= 16 && NamesGood(d.value)
  {
    forall d: Document | DocumentOk(d) && SpelledDocument(d) == text
      ensures Scan(text, []) <==> Nesting(d.value) <= MAX_DEPTH && NamesGood(d.value) {
      AcceptsExactly(d);
    }
  }
}
