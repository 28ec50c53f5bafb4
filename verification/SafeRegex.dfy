/**
  The recogniser of the safe subset of name patterns, and the grammar it recognises: what it
  accepts is a frame around tokens that each stand for one character or for none.
 */
module SafeRegex {
  import opened Wrappers

  const MAX_LENGTH := 256

  const MAX_ALTERNATIVES := 32

  const SINGLE_CHARACTER_ESCAPES := "AbBdDsSwWZfnrtv"

  const REPETITION_OR_GROUP_META := "*+?{}()"

  datatype Error = TooLong | TrailingEscape | Backreference | UnsupportedEscape | NestedClass | UnterminatedClass
                 | UnexpectedBracket | TooManyAlternatives | Repetition | CaretInside | DollarInside | DoesNotCompile

  /** What Python's character database says beyond ASCII. */
  datatype Tables = Tables(alpha: char -> bool, digit: char -> bool)

  predicate IsDigit(c: char, u: Tables) {
    if c < 128 as char then '0' <= c <= '9' else u.digit(c)
  }

  predicate IsAlpha(c: char, u: Tables) {
    if c < 128 as char then 'a' <= c <= 'z' || 'A' <= c <= 'Z' else u.alpha(c)
  }

  // ---- Grammar ---------------------------------------------------------------------------------------

  datatype Token = Bar | Caret | Dollar | Escape(c: char) | Class(text: string) | Plain(c: char)

  function Show(t: Token): string {
    match t
    case Bar => "|"
    case Caret => "^"
    case Dollar => "$"
    case Escape(c) => ['\\', c]
    case Class(text) => text
    case Plain(c) => [c]
  }

  function ShowAll(tokens: seq<Token>): string {
    if tokens == [] then "" else Show(tokens[0]) + ShowAll(tokens[1..])
  }

  /** An escape at the front of s. */
  function EscapeError(s: string, u: Tables): Option<Error>
    requires s != []
  {
    if |s| < 2 then Some(TrailingEscape)
    else if IsDigit(s[1], u) then Some(Backreference)
    else if IsAlpha(s[1], u) && s[1] !in SINGLE_CHARACTER_ESCAPES then Some(UnsupportedEscape)
    else None
  }

  /** How much of s the rest of a character class takes, closing bracket included. */
  function ClassBody(s: string, u: Tables): (r: Result<nat, Error>)
    ensures r.Ok? ==> 1 <= r.value <= |s|
    decreases |s|
  {
    if s == [] then Raise(UnterminatedClass)
    else if s[0] == '\\' then
      var e := EscapeError(s, u);
      if e.Some? then Raise(e.value) else Further(2, ClassBody(s[2..], u))
    else if s[0] == '[' then Raise(NestedClass)
    else if s[0] == ']' then Ok(1)
    else Further(1, ClassBody(s[1..], u))
  }

  function Further(n: nat, r: Result<nat, Error>): Result<nat, Error> {
    if r.Ok? then Ok(n + r.value) else r
  }

  /** Where the body of a class that opens at the front of s begins: a caret and a first closing bracket are passed. */
  function ClassOpening(s: string): (n: nat)
    ensures s != [] ==> n <= |s|
  {
    var n := if |s| > 1 && s[1] == '^' then 2 else 1;
    if |s| > n && s[n] == ']' then n + 1 else n
  }

  function ClassLength(s: string, u: Tables): (r: Result<nat, Error>)
    requires s != []
    ensures r.Ok? ==> 2 <= r.value <= |s|
  {
    Further(ClassOpening(s), ClassBody(s[ClassOpening(s)..], u))
  }

  predicate IsToken(t: Token, u: Tables) {
    match t
    case Escape(c) => EscapeError(['\\', c], u).None?
    case Class(text) => text != [] && text[0] == '[' && ClassLength(text, u) == Ok(|text|)
    case Plain(c) => c !in "\\[]|^$" && c !in REPETITION_OR_GROUP_META
    case _ => true
  }

  /** Flat tokens: no more bars than allowed, carets only at the start of a branch, dollars only at its end. */
  predicate Flat(tokens: seq<Token>, atStart: bool, bars: nat, u: Tables) {
    if tokens == [] then true
    else
      && IsToken(tokens[0], u)
      && (tokens[0].Bar? ==> bars > 0)
      && (tokens[0].Caret? ==> atStart)
      && (tokens[0].Dollar? && |tokens| > 1 ==> tokens[1].Bar?)
      && Flat(tokens[1..], tokens[0].Bar?, if tokens[0].Bar? then bars - 1 else bars, u)
  }

  /** The token at the front of s, as the recogniser takes it. */
  function Next(s: string, atStart: bool, alternatives: nat, u: Tables): (r: Result<Token, Error>)
    requires s != []
    ensures r.Ok? ==> 1 <= |Show(r.value)| <= |s|
  {
    var c := s[0];
    if c == '\\' then
      var e := EscapeError(s, u);
      if e.Some? then Raise(e.value) else Ok(Escape(s[1]))
    else if c == '[' then
      var n := ClassLength(s, u);
      if n.Raise? then Raise(n.error) else Ok(Class(s[..n.value]))
    else if c == ']' then Raise(UnexpectedBracket)
    else if c == '|' then
      if alternatives + 1 > MAX_ALTERNATIVES then Raise(TooManyAlternatives) else Ok(Bar)
    else if c in REPETITION_OR_GROUP_META then Raise(Repetition)
    else if c == '^' then
      if atStart then Ok(Caret) else Raise(CaretInside)
    else if c == '$' then
      if |s| > 1 && s[1] != '|' then Raise(DollarInside) else Ok(Dollar)
    else Ok(Plain(c))
  }

  function Tokenize(s: string, atStart: bool, alternatives: nat, u: Tables): Result<seq<Token>, Error>
    decreases |s|
  {
    if s == [] then Ok([])
    else
      var t := Next(s, atStart, alternatives, u);
      if t.Raise? then Raise(t.error)
      else
        var rest := Tokenize(s[|Show(t.value)|..], t.value.Bar?, if t.value.Bar? then alternatives + 1
            else alternatives, u);
        if rest.Raise? then rest else Ok([t.value] + rest.value)
  }

  // ---- The recogniser accepts exactly the grammar ----------------------------------------------------

  lemma {:induction false} ClassBodyIsLocal(s: string, rest: string, u: Tables)
    requires ClassBody(s, u).Ok?
    ensures ClassBody(s + rest, u) == ClassBody(s, u)
    decreases |s|
  {
    if s[0] == '\\' {
      ClassBodyIsLocal(s[2..], rest, u);
      assert (s + rest)[2..] == s[2..] + rest;
    } else if s[0] != ']' {
      ClassBodyIsLocal(s[1..], rest, u);
      assert (s + rest)[1..] == s[1..] + rest;
    }
  }

  lemma {:induction false} ClassBodyTakesPrefix(s: string, u: Tables)
    requires ClassBody(s, u).Ok?
    ensures ClassBody(s[..ClassBody(s, u).value], u) == ClassBody(s, u)
    decreases |s|
  {
    var n := ClassBody(s, u).value;
    if s[0] == '\\' {
      ClassBodyTakesPrefix(s[2..], u);
      assert s[..n][2..] == s[2..][..n - 2];
    } else if s[0] != ']' {
      ClassBodyTakesPrefix(s[1..], u);
      assert s[..n][1..] == s[1..][..n - 1];
    }
  }

  lemma DropFront(a: string, b: string, n: nat)
    requires n <= |a|
    ensures (a + b)[n..] == a[n..] + b
  {
  }

  lemma ClassIsLocal(text: string, rest: string, u: Tables)
    requires text != [] && ClassLength(text, u) == Ok(|text|)
    ensures ClassLength(text + rest, u) == Ok(|text|)
  {
    var n := ClassOpening(text);
    assert n < |text| && ClassOpening(text + rest) == n;
    DropFront(text, rest, n);
    ClassBodyIsLocal(text[n..], rest, u);
  }

  lemma ClassTakesPrefix(s: string, u: Tables)
    requires s != [] && ClassLength(s, u).Ok?
    ensures var n := ClassLength(s, u).value; ClassLength(s[..n], u) == Ok(n)
  {
    var n, o := ClassLength(s, u).value, ClassOpening(s);
    assert ClassOpening(s[..n]) == o;
    assert s[..n][o..] == s[o..][..n - o];
    ClassBodyTakesPrefix(s[o..], u);
  }

  lemma NextIsToken(s: string, atStart: bool, alternatives: nat, u: Tables)
    requires s != [] && Next(s, atStart, alternatives, u).Ok?
    ensures var t := Next(s, atStart, alternatives, u).value;
            && IsToken(t, u) && s == Show(t) + s[|Show(t)|..]
            && (t.Bar? ==> alternatives < MAX_ALTERNATIVES) && (t.Caret? ==> atStart)
            && (t.Dollar? && |s| > 1 ==> s[1] == '|')
  {
    if s[0] == '[' {
      ClassTakesPrefix(s, u);
    }
  }

  lemma TokenIsNext(t: Token, rest: string, atStart: bool, alternatives: nat, u: Tables)
    requires IsToken(t, u) && (t.Bar? ==> alternatives < MAX_ALTERNATIVES) && (t.Caret? ==> atStart)
    requires t.Dollar? && rest != [] ==> rest[0] == '|'
    ensures Next(Show(t) + rest, atStart, alternatives, u) == Ok(t) && (Show(t) + rest)[|Show(t)|..] == rest
  {
    DropFront(Show(t), rest, |Show(t)|);
    match t {
      case Class(text) => ClassIsNext(text, rest, atStart, alternatives, u);
      case Escape(c) => EscapeIsNext(c, rest, atStart, alternatives, u);
      case _ =>
    }
  }

  lemma ClassIsNext(text: string, rest: string, atStart: bool, alternatives: nat, u: Tables)
    requires IsToken(Class(text), u)
    ensures text + rest != [] && Next(text + rest, atStart, alternatives, u) == Ok(Class(text))
  {
    ClassIsLocal(text, rest, u);
    assert (text + rest)[..|text|] == text;
  }

  lemma EscapeIsNext(c: char, rest: string, atStart: bool, alternatives: nat, u: Tables)
    requires IsToken(Escape(c), u)
    ensures Next(['\\', c] + rest, atStart, alternatives, u) == Ok(Escape(c))
  {
    var s := ['\\', c] + rest;
    assert EscapeError(s, u) == EscapeError(['\\', c], u);
  }

  lemma ShowFront(t: Token, tokens: seq<Token>)
    ensures ShowAll([t] + tokens) == Show(t) + ShowAll(tokens) && ([t] + tokens)[1..] == tokens
  {
    assert ([t] + tokens)[1..] == tokens;
  }

  lemma FlatFront(t: Token, tokens: seq<Token>, atStart: bool, bars: nat, u: Tables)
    requires IsToken(t, u) && (t.Bar? ==> bars > 0) && (t.Caret? ==> atStart)
    requires t.Dollar? && tokens != [] ==> tokens[0].Bar?
    requires Flat(tokens, t.Bar?, if t.Bar? then bars - 1 else bars, u)
    ensures Flat([t] + tokens, atStart, bars, u)
  {
    assert ([t] + tokens)[1..] == tokens;
  }

  lemma BarIsShown(tokens: seq<Token>, u: Tables)
    requires tokens != [] && IsToken(tokens[0], u)
    ensures ShowAll(tokens) != [] && (ShowAll(tokens)[0] == '|' <==> tokens[0].Bar?)
  {
  }

  /** What is accepted is its tokens, and they are flat. */
  lemma {:induction false} AcceptedIsFlat(s: string, atStart: bool, alternatives: nat, u: Tables)
    requires Tokenize(s, atStart, alternatives, u).Ok? && 1 <= alternatives <= MAX_ALTERNATIVES
    ensures ShowAll(Tokenize(s, atStart, alternatives, u).value) == s
    ensures Flat(Tokenize(s, atStart, alternatives, u).value, atStart, MAX_ALTERNATIVES - alternatives, u)
    decreases |s|, 0
  {
    if s != [] {
      var t := Next(s, atStart, alternatives, u).value;
      var more := if t.Bar? then alternatives + 1 else alternatives;
      NextIsToken(s, atStart, alternatives, u);
      AcceptedTail(t, s, s[|Show(t)|..], more, u);
      var tokens := Tokenize(s[|Show(t)|..], t.Bar?, more, u).value;
      ShowFront(t, tokens);
      FlatFront(t, tokens, atStart, MAX_ALTERNATIVES - alternatives, u);
    }
  }

  lemma {:induction false} AcceptedTail(t: Token, s: string, rest: string, more: nat, u: Tables)
    requires |rest| < |s| && s == Show(t) + rest && Tokenize(rest, t.Bar?, more, u).Ok? && 1 <= more <= MAX_ALTERNATIVES
    requires t.Dollar? && |s| > 1 ==> s[1] == '|'
    ensures var tokens := Tokenize(rest, t.Bar?, more, u).value;
            && ShowAll(tokens) == rest && Flat(tokens, t.Bar?, MAX_ALTERNATIVES - more, u)
            && (t.Dollar? && tokens != [] ==> tokens[0].Bar?)
    decreases |rest|, 1
  {
    AcceptedIsFlat(rest, t.Bar?, more, u);
    var tokens := Tokenize(rest, t.Bar?, more, u).value;
    if t.Dollar? && tokens != [] {
      BarIsShown(tokens, u);
      assert rest[0] == s[1];
    }
  }

  /** And every flat sequence of tokens is accepted, as these tokens. */
  lemma {:induction false} FlatIsAccepted(tokens: seq<Token>, atStart: bool, alternatives: nat, u: Tables)
    requires 1 <= alternatives <= MAX_ALTERNATIVES && Flat(tokens, atStart, MAX_ALTERNATIVES - alternatives, u)
    ensures Tokenize(ShowAll(tokens), atStart, alternatives, u) == Ok(tokens)
  {
    if tokens != [] {
      var t, rest := tokens[0], tokens[1..];
      FlatIsAccepted(rest, t.Bar?, if t.Bar? then alternatives + 1 else alternatives, u);
      if rest != [] {
        BarIsShown(rest, u);
      }
      TokenIsNext(t, ShowAll(rest), atStart, alternatives, u);
      assert tokens == [t] + rest;
    }
  }
}
