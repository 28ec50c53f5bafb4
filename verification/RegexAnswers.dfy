/** What the recogniser accepts and refuses, with every character written out. */
module RegexAnswers {
  import opened Wrappers
  import opened SafeRegex

  // ---- Single characters -------------------------------------------------------------------------

  predicate Meta(c: char) {
    c == '*' || c == '+' || c == '?' || c == '{' || c == '}' || c == '(' || c == ')'
  }

  predicate LetterEscape(c: char) {
    || c == 'A' || c == 'b' || c == 'B' || c == 'd' || c == 'D' || c == 's' || c == 'S' || c == 'w' || c == 'W'
    || c == 'Z' || c == 'f' || c == 'n' || c == 'r' || c == 't' || c == 'v'
  }

  /** Digits and letters: by their codes in ASCII, beyond it what the character database says. */
  predicate Digit(c: char, u: Tables) {
    48 <= c as int <= 57 || (c as int >= 128 && u.digit(c))
  }

  predicate Letter(c: char, u: Tables) {
    65 <= c as int <= 90 || 97 <= c as int <= 122 || (c as int >= 128 && u.alpha(c))
  }

  /** What may follow a backslash. */
  predicate SafeEscape(c: char, u: Tables) {
    !Digit(c, u) && (Letter(c, u) ==> LetterEscape(c))
  }

  lemma EscapesAreSafe(s: string, u: Tables)
    requires s != []
    ensures EscapeError(s, u) == if |s| == 1 then Some(TrailingEscape)
                                 else if SafeEscape(s[1], u) then None
                                 else if Digit(s[1], u) then Some(Backreference) else Some(UnsupportedEscape)
  {
  }

  // ---- Character classes -------------------------------------------------------------------------

  datatype ClassItem = One(c: char) | Escaped(c: char)

  function ShowItem(x: ClassItem): string {
    match x
    case One(c) => [c]
    case Escaped(c) => ['\\', c]
  }

  function ShowItems(items: seq<ClassItem>): string {
    if items == [] then "" else ShowItem(items[0]) + ShowItems(items[1..])
  }

  predicate SafeItem(x: ClassItem, u: Tables) {
    match x
    case One(c) => c != '[' && c != ']' && c != '\\'
    case Escaped(c) => SafeEscape(c, u)
  }

  predicate SafeItems(items: seq<ClassItem>, u: Tables) {
    forall i :: 0 <= i < |items| ==> SafeItem(items[i], u)
  }

  lemma ItemIsPassed(x: ClassItem, tail: string, u: Tables)
    requires SafeItem(x, u)
    ensures ClassBody(ShowItem(x) + tail, u) == Further(|ShowItem(x)|, ClassBody(tail, u))
  {
    var s := ShowItem(x) + tail;
    assert s[|ShowItem(x)|..] == tail;
    EscapesAreSafe(s, u);
  }

  lemma {:induction false} BodyOfItems(items: seq<ClassItem>, u: Tables)
    requires SafeItems(items, u)
    ensures ClassBody(ShowItems(items) + "]", u) == Ok(|ShowItems(items)| + 1)
  {
    if items != [] {
      var x, tail := items[0], ShowItems(items[1..]) + "]";
      BodyOfItems(items[1..], u);
      ItemIsPassed(x, tail, u);
      assert ShowItems(items) + "]" == ShowItem(x) + tail by { Regrouped(ShowItem(x), ShowItems(items[1..]), "]"); }
    } else {
      assert "" + "]" == "]";
    }
  }

  lemma {:induction false} ItemsOfBody(s: string, u: Tables) returns (items: seq<ClassItem>)
    requires ClassBody(s, u) == Ok(|s|)
    ensures SafeItems(items, u) && s == ShowItems(items) + "]"
    decreases |s|
  {
    EscapesAreSafe(s, u);
    if s[0] == ']' {
      items := [];
      assert s == "]" && "" + "]" == "]";
    } else if s[0] == '\\' {
      var rest := ItemsOfBody(s[2..], u);
      items := [Escaped(s[1])] + rest;
      assert s == ['\\', s[1]] + s[2..] && items[1..] == rest;
      Regrouped(['\\', s[1]], ShowItems(rest), "]");
    } else {
      var rest := ItemsOfBody(s[1..], u);
      items := [One(s[0])] + rest;
      assert s == [s[0]] + s[1..] && items[1..] == rest;
      Regrouped([s[0]], ShowItems(rest), "]");
    }
  }

  lemma Regrouped(a: string, b: string, c: string)
    ensures a + (b + c) == a + b + c
  {
  }

  /**
    A character class: an opening bracket, perhaps a caret, perhaps a closing bracket that stands for
    itself, and then single characters and escapes up to the closing bracket. Without that bracket
    there is at least one of them, and without a caret the first is none.
   */
  ghost predicate SafeClass(text: string, u: Tables) {
    exists caret: bool, bracket: bool, items: seq<ClassItem> ::
      && SafeItems(items, u)
      && (!bracket ==> items != [] && (!caret ==> items[0] != One('^')))
      && text == ClassText(caret, bracket, items)
  }

  function ClassText(caret: bool, bracket: bool, items: seq<ClassItem>): string {
    ClassFront(caret, bracket) + (ShowItems(items) + "]")
  }

  function ClassFront(caret: bool, bracket: bool): string {
    (if caret then "[^" else "[") + if bracket then "]" else ""
  }

  lemma ClassesAreSafe(text: string, u: Tables)
    ensures text != [] && text[0] == '[' && ClassLength(text, u) == Ok(|text|) <==> SafeClass(text, u)
  {
    if text != [] && text[0] == '[' && ClassLength(text, u) == Ok(|text|) {
      ClassHasItems(text, u);
    }
    if caret: bool, bracket: bool, items: seq<ClassItem> :|
      && SafeItems(items, u)
      && (!bracket ==> items != [] && (!caret ==> items[0] != One('^')))
      && text == ClassText(caret, bracket, items) {
      ItemsMakeClass(caret, bracket, items, u);
    }
  }

  lemma ClassHasItems(text: string, u: Tables)
    requires text != [] && text[0] == '[' && ClassLength(text, u) == Ok(|text|)
    ensures SafeClass(text, u)
  {
    var n := ClassOpening(text);
    var caret := |text| > 1 && text[1] == '^';
    var bracket := n == if caret then 3 else 2;
    var items := ItemsOfBody(text[n..], u);
    assert text[..n] == ClassFront(caret, bracket);
    assert text == text[..n] + text[n..];
    if !bracket {
      FirstItem(items, text[n..]);
    }
    assert text == ClassText(caret, bracket, items);
  }

  lemma FirstItem(items: seq<ClassItem>, s: string)
    requires s == ShowItems(items) + "]"
    ensures items == [] <==> s[0] == ']' && |s| == 1
    ensures items != [] ==> s[0] == ShowItem(items[0])[0]
  {
    if items == [] {
      assert s == "]";
    }
  }

  lemma ItemsMakeClass(caret: bool, bracket: bool, items: seq<ClassItem>, u: Tables)
    requires SafeItems(items, u) && (!bracket ==> items != [] && (!caret ==> items[0] != One('^')))
    ensures var text := ClassText(caret, bracket, items);
            text[0] == '[' && ClassLength(text, u) == Ok(|text|)
  {
    var front, body := ClassFront(caret, bracket), ShowItems(items) + "]";
    var text := front + body;
    BodyOfItems(items, u);
    FirstItem(items, body);
    assert !bracket ==> SafeItem(items[0], u);
    assert ClassOpening(text) == |front|;
    assert text[|front|..] == body;
  }

  // ---- Tokens and sequences of them --------------------------------------------------------------

  ghost predicate SafeToken(t: Token, u: Tables) {
    match t
    case Plain(c) => !Meta(c) && c != '\\' && c != '[' && c != ']' && c != '|' && c != '^' && c != '$'
    case Escape(c) => SafeEscape(c, u)
    case Class(text) => SafeClass(text, u)
    case _ => true
  }

  lemma TokensAreSafe(t: Token, u: Tables)
    ensures IsToken(t, u) <==> SafeToken(t, u)
  {
    match t
    case Class(text) => ClassesAreSafe(text, u);
    case Escape(c) => EscapesAreSafe(['\\', c], u);
    case _ =>
  }

  function Bars(tokens: seq<Token>): nat {
    if tokens == [] then 0 else (if tokens[0].Bar? then 1 else 0) + Bars(tokens[1..])
  }

  /** Safe tokens in which carets only open branches, dollars only close them, and bars are few. */
  ghost predicate SafeTokens(tokens: seq<Token>, u: Tables) {
    && (forall i :: 0 <= i < |tokens| ==> SafeToken(tokens[i], u))
    && (forall i :: 0 < i < |tokens| && tokens[i].Caret? ==> tokens[i - 1].Bar?)
    && (forall i :: 0 <= i < |tokens| - 1 && tokens[i].Dollar? ==> tokens[i + 1].Bar?)
    && Bars(tokens) <= 31
  }

  lemma {:induction false} FlatMeans(tokens: seq<Token>, atStart: bool, bars: nat, u: Tables)
    ensures Flat(tokens, atStart, bars, u)
       <==> && (forall i :: 0 <= i < |tokens| ==> SafeToken(tokens[i], u))
            && (forall i :: 0 < i < |tokens| && tokens[i].Caret? ==> tokens[i - 1].Bar?)
            && (tokens != [] && tokens[0].Caret? ==> atStart)
            && (forall i :: 0 <= i < |tokens| - 1 && tokens[i].Dollar? ==> tokens[i + 1].Bar?)
            && Bars(tokens) <= bars
  {
    if tokens != [] {
      var t, rest := tokens[0], tokens[1..];
      TokensAreSafe(t, u);
      if !(t.Bar? && bars == 0) {
        FlatMeans(rest, t.Bar?, if t.Bar? then bars - 1 else bars, u);
      }
      assert forall i :: 0 < i < |tokens| ==> tokens[i] == rest[i - 1];
    }
  }

  /** An expression is accepted exactly if it is the text of such tokens. */
  lemma AcceptedMeans(s: string, u: Tables)
    ensures Tokenize(s, true, 1, u).Ok? <==> exists tokens :: SafeTokens(tokens, u) && ShowAll(tokens) == s
    ensures Tokenize(s, true, 1, u).Ok? ==>
              SafeTokens(Tokenize(s, true, 1, u).value, u) && ShowAll(Tokenize(s, true, 1, u).value) == s
  {
    if Tokenize(s, true, 1, u).Ok? {
      AcceptedIsFlat(s, true, 1, u);
      FlatMeans(Tokenize(s, true, 1, u).value, true, 31, u);
    }
    if tokens :| SafeTokens(tokens, u) && ShowAll(tokens) == s {
      FlatMeans(tokens, true, 31, u);
      FlatIsAccepted(tokens, true, 1, u);
    }
  }

  // ---- Which error comes first -------------------------------------------------------------------

  predicate StartAfter(tokens: seq<Token>, atStart: bool) {
    if tokens == [] then atStart else tokens[|tokens| - 1].Bar?
  }

  /** An error after accepted tokens is the error of the whole. */
  lemma {:induction false} ErrorAfter(tokens: seq<Token>, rest: string, atStart: bool, alternatives: nat, start: bool,
                                      reached: nat, e: Error, u: Tables)
    requires 1 <= alternatives <= MAX_ALTERNATIVES && Flat(tokens, atStart, MAX_ALTERNATIVES - alternatives, u)
    requires start == StartAfter(tokens, atStart) && reached == alternatives + Bars(tokens)
    requires tokens != [] && tokens[|tokens| - 1].Dollar? && rest != "" ==> rest[0] == '|'
    requires Tokenize(rest, start, reached, u) == Raise(e)
    ensures Tokenize(ShowAll(tokens) + rest, atStart, alternatives, u) == Raise(e)
  {
    if tokens == [] {
      assert ShowAll(tokens) + rest == rest && atStart == start && alternatives == reached;
      assert Tokenize(ShowAll(tokens) + rest, atStart, alternatives, u) == Raise(e);
    } else {
      var bar := tokens[0].Bar?;
      FirstIsPassed(tokens, atStart, alternatives, u);
      ErrorAfter(tokens[1..], rest, bar, if bar then alternatives + 1 else alternatives, start, reached, e, u);
      ErrorOfRest(tokens, rest, atStart, alternatives, e, u);
      assert Tokenize(ShowAll(tokens) + rest, atStart, alternatives, u) == Raise(e);
    }
  }

  lemma FirstIsPassed(tokens: seq<Token>, atStart: bool, alternatives: nat, u: Tables)
    requires tokens != []
    requires 1 <= alternatives <= MAX_ALTERNATIVES && Flat(tokens, atStart, MAX_ALTERNATIVES - alternatives, u)
    ensures var t, more := tokens[0], tokens[1..];
            var next := if t.Bar? then alternatives + 1 else alternatives;
            && 1 <= next <= MAX_ALTERNATIVES && Flat(more, t.Bar?, MAX_ALTERNATIVES - next, u)
            && StartAfter(more, t.Bar?) == StartAfter(tokens, atStart)
            && next + Bars(more) == alternatives + Bars(tokens)
            && (more != [] ==> more[|more| - 1] == tokens[|tokens| - 1])
  {
  }

  lemma ErrorOfRest(tokens: seq<Token>, rest: string, atStart: bool, alternatives: nat, e: Error, u: Tables)
    requires tokens != []
    requires 1 <= alternatives <= MAX_ALTERNATIVES && Flat(tokens, atStart, MAX_ALTERNATIVES - alternatives, u)
    requires tokens[|tokens| - 1].Dollar? && rest != "" ==> rest[0] == '|'
    requires var bar := tokens[0].Bar?;
             var next := if bar then alternatives + 1 else alternatives;
             Tokenize(ShowAll(tokens[1..]) + rest, bar, next, u) == Raise(e)
    ensures Tokenize(ShowAll(tokens) + rest, atStart, alternatives, u) == Raise(e)
  {
    BarFollows(tokens, rest, u);
    ErrorPasses(tokens[0], ShowAll(tokens[1..]) + rest, atStart, alternatives, u);
    Regrouped(Show(tokens[0]), ShowAll(tokens[1..]), rest);
  }

  lemma ErrorPasses(t: Token, tail: string, atStart: bool, alternatives: nat, u: Tables)
    requires IsToken(t, u) && (t.Bar? ==> alternatives < MAX_ALTERNATIVES) && (t.Caret? ==> atStart)
    requires t.Dollar? && tail != [] ==> tail[0] == '|'
    ensures var inner := Tokenize(tail, t.Bar?, if t.Bar? then alternatives + 1 else alternatives, u);
            inner.Raise? ==> Tokenize(Show(t) + tail, atStart, alternatives, u) == inner
  {
    TokenIsNext(t, tail, atStart, alternatives, u);
  }

  lemma BarFollows(tokens: seq<Token>, rest: string, u: Tables)
    requires tokens != [] && tokens[0].Dollar? && |tokens| > 1 ==> tokens[1].Bar? && IsToken(tokens[1], u)
    requires tokens != [] && tokens[|tokens| - 1].Dollar? && rest != "" ==> rest[0] == '|'
    ensures tokens != [] && tokens[0].Dollar? && ShowAll(tokens[1..]) + rest != "" ==>
              (ShowAll(tokens[1..]) + rest)[0] == '|'
  {
    if tokens != [] && tokens[0].Dollar? {
      if |tokens| > 1 {
        BarIsShown(tokens[1..], u);
      } else {
        assert ShowAll(tokens[1..]) + rest == rest;
      }
    }
  }

  /** After safe tokens, the next character decides what is wrong. */
  lemma FirstError(tokens: seq<Token>, rest: string, u: Tables)
    requires SafeTokens(tokens, u) && rest != "" && (tokens != [] ==> !tokens[|tokens| - 1].Dollar?)
    ensures var c, r := rest[0], Tokenize(ShowAll(tokens) + rest, true, 1, u);
            && (Meta(c) ==> r == Raise(Repetition))
            && (c == ']' ==> r == Raise(UnexpectedBracket))
            && (c == '|' && Bars(tokens) == 31 ==> r == Raise(TooManyAlternatives))
            && (c == '^' && tokens != [] && !tokens[|tokens| - 1].Bar? ==> r == Raise(CaretInside))
            && (c == '$' && |rest| > 1 && rest[1] != '|' ==> r == Raise(DollarInside))
            && (c == '\\' && |rest| == 1 ==> r == Raise(TrailingEscape))
            && (c == '\\' && |rest| > 1 && Digit(rest[1], u) ==> r == Raise(Backreference))
            && (c == '\\' && |rest| > 1 && !Digit(rest[1], u) && Letter(rest[1], u) && !LetterEscape(rest[1]) ==>
                  r == Raise(UnsupportedEscape))
            && (c == '[' && ClassLength(rest, u).Raise? ==> r == Raise(ClassLength(rest, u).error))
  {
    FlatMeans(tokens, true, 31, u);
    var start, reached := StartAfter(tokens, true), 1 + Bars(tokens);
    if Tokenize(rest, start, reached, u).Raise? {
      ErrorAfter(tokens, rest, true, 1, start, reached, Tokenize(rest, start, reached, u).error, u);
    }
    EscapesAreSafe(rest, u);
  }

  /** What is wrong with a class: it is not closed, or a bracket or a bad escape stands in it. */
  lemma ClassErrors(caret: bool, bracket: bool, items: seq<ClassItem>, rest: string, u: Tables)
    requires SafeItems(items, u)
    requires !bracket && !caret && items != [] ==> items[0] != One('^')
    requires rest == "" || rest[0] == '[' || (rest[0] == '\\' && EscapeError(rest, u).Some?)
    ensures ClassLength(ClassFront(caret, bracket) + (ShowItems(items) + rest), u)
         == if rest == "" then Raise(UnterminatedClass)
            else if rest[0] == '[' then Raise(NestedClass) else Raise(EscapeError(rest, u).value)
  {
    var front, body := ClassFront(caret, bracket), ShowItems(items) + rest;
    BodyError(items, rest, u);
    FirstOfBody(items, rest, u);
    assert ClassOpening(front + body) == |front|;
    assert (front + body)[|front|..] == body;
  }

  lemma FirstOfBody(items: seq<ClassItem>, rest: string, u: Tables)
    requires SafeItems(items, u) && (rest == "" || rest[0] == '[' || rest[0] == '\\')
    ensures var body := ShowItems(items) + rest;
            && (body != "" ==> body[0] != ']')
            && (body != "" && body[0] == '^' ==> items != [] && items[0] == One('^'))
  {
    if items == [] {
      assert ShowItems(items) + rest == rest;
    } else {
      assert SafeItem(items[0], u);
    }
  }

  lemma {:induction false} BodyError(items: seq<ClassItem>, rest: string, u: Tables)
    requires SafeItems(items, u)
    requires rest == "" || rest[0] == '[' || (rest[0] == '\\' && EscapeError(rest, u).Some?)
    ensures ClassBody(ShowItems(items) + rest, u)
         == if rest == "" then Raise(UnterminatedClass)
            else if rest[0] == '[' then Raise(NestedClass) else Raise(EscapeError(rest, u).value)
  {
    if items == [] {
      assert ShowItems(items) + rest == rest;
    } else {
      var x, tail := items[0], ShowItems(items[1..]) + rest;
      BodyError(items[1..], rest, u);
      ItemIsPassed(x, tail, u);
      assert ShowItems(items) + rest == ShowItem(x) + tail by { Regrouped(ShowItem(x), ShowItems(items[1..]), rest); }
    }
  }
}
