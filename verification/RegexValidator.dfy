/** The validator's own cursor loops, proved against the grammar, and the frame it strips from a pattern. */
module RegexValidator {
  import opened Wrappers
  import opened SafeRegex
  import opened RegexAnswers

  datatype Group = Ungrouped | Capturing | NonCapturing

  /** What may stand around the flat expression. */
  datatype Frame = Frame(icase: bool, caret: bool, dollar: bool, group: Group)

  function Opening(g: Group): string {
    match g
    case Ungrouped => ""
    case Capturing => "("
    case NonCapturing => "(?:"
  }

  function Closing(g: Group): string {
    if g.Ungrouped? then "" else ")"
  }

  function Render(f: Frame, body: string): string {
    (if f.icase then "(?i)" else "")
    + ((if f.caret then "^" else "")
       + ((Opening(f.group) + body + Closing(f.group))
          + if f.dollar then "$" else ""))
  }

  /** How many backslashes end a string. */
  function Backslashes(s: string): nat {
    if s == [] || s[|s| - 1] != '\\' then 0 else Backslashes(s[..|s| - 1]) + 1
  }

  predicate EndsUnescaped(s: string) {
    s != [] && s[|s| - 1] == '$' && Backslashes(s[..|s| - 1]) % 2 == 0
  }

  function StripFlag(s: string): (r: (bool, string))
    ensures s == (if r.0 then "(?i)" else "") + r.1
  {
    if "(?i)" <= s then (true, s[4..]) else (false, s)
  }

  function StripCaret(s: string): (r: (bool, string))
    ensures s == (if r.0 then "^" else "") + r.1
  {
    if "^" <= s then (true, s[1..]) else (false, s)
  }

  function StripDollar(s: string): (r: (bool, string))
    ensures s == r.1 + if r.0 then "$" else ""
  {
    if EndsUnescaped(s) then (true, s[..|s| - 1]) else (false, s)
  }

  predicate EndsWithParenthesis(s: string) {
    s != [] && s[|s| - 1] == ')'
  }

  function StripGroup(s: string): (r: (Group, string))
    ensures s == Opening(r.0) + r.1 + Closing(r.0)
  {
    if "(?:" <= s && EndsWithParenthesis(s) then (NonCapturing, s[3..|s| - 1])
    else if "(" <= s && EndsWithParenthesis(s) then (Capturing, s[1..|s| - 1])
    else (Ungrouped, s)
  }

  /** The frame and the flat expression of a pattern. */
  function Strip(pattern: string): (r: (Frame, string))
    ensures Render(r.0, r.1) == pattern
  {
    var flag := StripFlag(pattern);
    var caret := StripCaret(flag.1);
    var dollar := StripDollar(caret.1);
    var group := StripGroup(dollar.1);
    (Frame(flag.0, caret.0, dollar.0, group.0), group.1)
  }

  method IsEscaped(value: string, index: nat) returns (r: bool)
    requires index <= |value|
    ensures r <==> Backslashes(value[..index]) % 2 == 1
  {
    var backslashes := 0;
    var i: nat := index;
    assert value[..index][..i] == value[..i];
    while i > 0 && value[i - 1] == '\\'
      invariant i <= index && Backslashes(value[..index]) == backslashes + Backslashes(value[..i])
    {
      assert value[..i][..i - 1] == value[..i - 1];
      backslashes := backslashes + 1;
      i := i - 1;
    }
    r := backslashes % 2 == 1;
  }

  function ConsumeEscape(pattern: string, index: nat, u: Tables): (r: Result<nat, Error>)
    requires index < |pattern|
    ensures r == match EscapeError(pattern[index..], u) case Some(e) => Raise(e) case None => Ok(index + 2)
    ensures r.Ok? ==> r.value <= |pattern|
  {
    if index + 1 >= |pattern| then Raise(TrailingEscape)
    else
      var escaped := pattern[index + 1];
      if IsDigit(escaped, u) then Raise(Backreference)
      else if IsAlpha(escaped, u) && escaped !in SINGLE_CHARACTER_ESCAPES then Raise(UnsupportedEscape)
      else Ok(index + 2)
  }

  method ConsumeCharacterClass(pattern: string, index: nat, u: Tables) returns (r: Result<nat, Error>)
    requires index < |pattern|
    ensures r == Further(index, ClassLength(pattern[index..], u))
  {
    var s := pattern[index..];
    var cursor := index + 1;
    if cursor < |pattern| && pattern[cursor] == '^' {
      cursor := cursor + 1;
    }
    if cursor < |pattern| && pattern[cursor] == ']' {
      cursor := cursor + 1;
    }
    assert cursor == index + ClassOpening(s) && s[ClassOpening(s)..] == pattern[cursor..];
    r := ConsumeClassBody(pattern, cursor, u);
  }

  method ConsumeClassBody(pattern: string, start: nat, u: Tables) returns (r: Result<nat, Error>)
    requires start <= |pattern|
    ensures r == Further(start, ClassBody(pattern[start..], u))
  {
    var cursor := start;
    while cursor < |pattern|
      invariant start <= cursor <= |pattern|
      invariant Further(start, ClassBody(pattern[start..], u)) == Further(cursor, ClassBody(pattern[cursor..], u))
    {
      var character := pattern[cursor];
      if character == '\\' {
        var next := ConsumeEscape(pattern, cursor, u);
        if next.Raise? {
          return next;
        }
        assert pattern[cursor..][2..] == pattern[next.value..];
        cursor := next.value;
        continue;
      }
      if character == '[' {
        return Raise(NestedClass);
      }
      if character == ']' {
        return Ok(cursor + 1);
      }
      assert pattern[cursor..][1..] == pattern[cursor + 1..];
      cursor := cursor + 1;
    }
    r := Raise(UnterminatedClass);
  }

  function ErrorOf<T>(r: Result<T, Error>): Option<Error> {
    if r.Raise? then Some(r.error) else None
  }

  lemma Accepts(s: string, atStart: bool, alternatives: nat, t: Token, u: Tables)
    requires s != [] && Next(s, atStart, alternatives, u) == Ok(t)
    ensures ErrorOf(Tokenize(s, atStart, alternatives, u))
         == ErrorOf(Tokenize(s[|Show(t)|..], t.Bar?, if t.Bar? then alternatives + 1 else alternatives, u))
  {
  }

  lemma Takes(expression: string, cursor: nat, atStart: bool, alternatives: nat, t: Token, after: nat, u: Tables)
    requires cursor < |expression| && Next(expression[cursor..], atStart, alternatives, u) == Ok(t)
    requires after == cursor + |Show(t)| && (t.Bar? <==> expression[cursor] == '|')
    ensures cursor < after <= |expression|
    ensures var bar := expression[cursor] == '|';
            ErrorOf(Tokenize(expression[cursor..], atStart, alternatives, u))
            == ErrorOf(Tokenize(expression[after..], bar, if bar then alternatives + 1 else alternatives, u))
  {
    var s, n := expression[cursor..], |Show(t)|;
    Accepts(s, atStart, alternatives, t, u);
    assert s[n..] == expression[after..];
  }

  lemma Refuses(expression: string, cursor: nat, atStart: bool, alternatives: nat, u: Tables)
    requires cursor < |expression| && Next(expression[cursor..], atStart, alternatives, u).Raise?
    ensures ErrorOf(Tokenize(expression[cursor..], atStart, alternatives, u))
            == ErrorOf(Next(expression[cursor..], atStart, alternatives, u))
  {
  }

  /** One turn of the cursor loop: where the cursor moves, or what is wrong. */
  method Turn(expression: string, cursor: nat, branchStart: nat, alternatives: nat, u: Tables)
    returns (r: Result<nat, Error>)
    requires branchStart <= cursor < |expression|
    ensures r.Raise? ==>
              ErrorOf(Tokenize(expression[cursor..], cursor == branchStart, alternatives, u)) == Some(r.error)
    ensures r.Ok? ==>
              var bar := expression[cursor] == '|';
              && cursor < r.value <= |expression|
              && ErrorOf(Tokenize(expression[cursor..], cursor == branchStart, alternatives, u))
                 == ErrorOf(Tokenize(expression[r.value..], bar, if bar then alternatives + 1 else alternatives, u))
  {
    ghost var next := Next(expression[cursor..], cursor == branchStart, alternatives, u);
    r := Look(expression, cursor, branchStart, alternatives, u);
    if r.Raise? {
      Refuses(expression, cursor, cursor == branchStart, alternatives, u);
    } else {
      Takes(expression, cursor, cursor == branchStart, alternatives, next.value, r.value, u);
    }
  }

  method Look(expression: string, cursor: nat, branchStart: nat, alternatives: nat, u: Tables)
    returns (r: Result<nat, Error>)
    requires branchStart <= cursor < |expression|
    ensures var next := Next(expression[cursor..], cursor == branchStart, alternatives, u);
            && r == (if next.Raise? then Raise(next.error) else Ok(cursor + |Show(next.value)|))
            && (next.Ok? ==> (next.value.Bar? <==> expression[cursor] == '|'))
  {
    var character := expression[cursor];
    assert expression[cursor..][0] == character;
    if character == '\\' {
      r := ConsumeEscape(expression, cursor, u);
    } else if character == '[' {
      r := ConsumeCharacterClass(expression, cursor, u);
    } else if character == ']' {
      r := Raise(UnexpectedBracket);
    } else if character == '|' {
      r := if alternatives + 1 > MAX_ALTERNATIVES then Raise(TooManyAlternatives) else Ok(cursor + 1);
    } else if character in REPETITION_OR_GROUP_META {
      r := Raise(Repetition);
    } else if character == '^' && cursor != branchStart {
      r := Raise(CaretInside);
    } else if character == '$' && cursor + 1 < |expression| && expression[cursor + 1] != '|' {
      r := Raise(DollarInside);
    } else {
      r := Ok(cursor + 1);
    }
  }

  method ValidateFlatAlternatives(expression: string, u: Tables) returns (error: Option<Error>)
    ensures error == ErrorOf(Tokenize(expression, true, 1, u))
  {
    var branchStart := 0;
    var alternatives := 1;
    var cursor := 0;
    assert expression[0..] == expression;
    while cursor < |expression|
      invariant 0 <= branchStart <= cursor <= |expression| && alternatives >= 1
      invariant ErrorOf(Tokenize(expression, true, 1, u))
                == ErrorOf(Tokenize(expression[cursor..], cursor == branchStart, alternatives, u))
    {
      var turn := Turn(expression, cursor, branchStart, alternatives, u);
      if turn.Raise? {
        return Some(turn.error);
      }
      if expression[cursor] == '|' {
        alternatives := alternatives + 1;
        branchStart := turn.value;
      }
      cursor := turn.value;
    }
    error := None;
  }

  /** The flat tokens of a pattern with its frame. */
  datatype Parsed = Parsed(frame: Frame, tokens: seq<Token>)

  function Parse(pattern: string, u: Tables): Result<Parsed, Error> {
    if |pattern| > MAX_LENGTH then Raise(TooLong)
    else
      var stripped := Strip(pattern);
      var tokens := Tokenize(stripped.1, true, 1, u);
      if tokens.Raise? then Raise(tokens.error) else Ok(Parsed(stripped.0, tokens.value))
  }

  /** An accepted pattern is its frame around flat tokens, with no more branches than allowed. */
  lemma AcceptedPatternIsFramedFlat(pattern: string, u: Tables)
    requires Parse(pattern, u).Ok?
    ensures var p := Parse(pattern, u).value;
            pattern == Render(p.frame, ShowAll(p.tokens)) && Flat(p.tokens, true, MAX_ALTERNATIVES - 1, u)
    ensures |pattern| <= MAX_LENGTH
  {
    AcceptedIsFlat(Strip(pattern).1, true, 1, u);
  }

  /** The flat expression inside the frame. */
  method Unframe(pattern: string) returns (expression: string)
    ensures expression == Strip(pattern).1
  {
    expression := pattern;
    if "(?i)" <= expression {
      expression := expression[4..];
    }
    assert expression == StripFlag(pattern).1;
    if "^" <= expression {
      expression := expression[1..];
    }
    expression := DropDollar(expression);
    expression := DropGroup(expression);
  }

  method DropDollar(s: string) returns (r: string)
    ensures r == StripDollar(s).1
  {
    r := s;
    if s != [] && s[|s| - 1] == '$' {
      var escaped := IsEscaped(s, |s| - 1);
      if !escaped {
        r := s[..|s| - 1];
      }
    }
  }

  method DropGroup(s: string) returns (r: string)
    ensures r == StripGroup(s).1
  {
    r := s;
    if "(?:" <= s && s[|s| - 1] == ')' {
      r := s[3..|s| - 1];
    } else if "(" <= s && s[|s| - 1] == ')' {
      r := s[1..|s| - 1];
    }
  }

  lemma {:induction false} NeverTooLong(s: string, atStart: bool, alternatives: nat, u: Tables)
    ensures Tokenize(s, atStart, alternatives, u) != Raise(TooLong)
    ensures Tokenize(s, atStart, alternatives, u) != Raise(DoesNotCompile)
    decreases |s|
  {
    if s != [] {
      var t := Next(s, atStart, alternatives, u);
      ClassErrorsOnly(s, u);
      if t.Ok? {
        NeverTooLong(s[|Show(t.value)|..], t.value.Bar?, if t.value.Bar? then alternatives + 1 else alternatives, u);
      }
    }
  }

  lemma ClassErrorsOnly(s: string, u: Tables)
    requires s != []
    ensures ClassLength(s, u).Raise? ==> ClassLength(s, u).error != TooLong && ClassLength(s, u).error != DoesNotCompile
  {
    BodyErrorsOnly(s[ClassOpening(s)..], u);
  }

  lemma {:induction false} BodyErrorsOnly(s: string, u: Tables)
    ensures ClassBody(s, u).Raise? ==> ClassBody(s, u).error != TooLong && ClassBody(s, u).error != DoesNotCompile
    decreases |s|
  {
    if s != [] && s[0] == '\\' && EscapeError(s, u).None? {
      BodyErrorsOnly(s[2..], u);
    } else if s != [] && s[0] != '[' && s[0] != ']' {
      BodyErrorsOnly(s[1..], u);
    }
  }

  lemma StripPieces(pattern: string) returns (p1: string, p2: string, p3: string)
    ensures var (f, body) := Strip(pattern);
            && StripFlag(pattern) == (f.icase, p1) && StripCaret(p1) == (f.caret, p2)
            && StripDollar(p2) == (f.dollar, p3) && StripGroup(p3) == (f.group, body)
            && p1 == (if f.caret then "^" else "") + p2 && p2 == p3 + (if f.dollar then "$" else "")
            && p3 == Opening(f.group) + body + Closing(f.group)
            && (!f.icase ==> p1 == pattern) && (!f.caret ==> p2 == p1)
  {
    p1 := StripFlag(pattern).1;
    p2 := StripCaret(p1).1;
    p3 := StripDollar(p2).1;
  }

  /** The frame is taken off as far as possible: nothing is left in front or behind that could have been part of it. */
  lemma StripLeavesNothing(pattern: string)
    ensures var (f, body) := Strip(pattern);
            var p3 := Opening(f.group) + body + Closing(f.group);
            var p2 := p3 + if f.dollar then "$" else "";
            var p1 := (if f.caret then "^" else "") + p2;
            && pattern == (if f.icase then "(?i)" else "") + p1
            && (!f.icase ==> !("(?i)" <= p1))
            && (!f.caret ==> p2 == "" || p2[0] != '^')
            && (!f.dollar ==> p2 == "" || p2[|p2| - 1] != '$' || Backslashes(p2[..|p2| - 1]) % 2 == 1)
            && (f.dollar ==> Backslashes(p3) % 2 == 0)
            && (f.group.Ungrouped? ==> |p3| < 2 || p3[0] != '(' || p3[|p3| - 1] != ')')
            && (f.group.Capturing? ==> !("(?:" <= p3))
  {
    var p1, p2, p3 := StripPieces(pattern);
    DollarMeans(p2);
    GroupMeans(p3);
  }

  lemma DollarMeans(s: string)
    ensures StripDollar(s).0 ==> Backslashes(StripDollar(s).1) % 2 == 0
    ensures !StripDollar(s).0 ==> s == "" || s[|s| - 1] != '$' || Backslashes(s[..|s| - 1]) % 2 == 1
  {
  }

  lemma GroupMeans(s: string)
    ensures StripGroup(s).0.Ungrouped? ==> |s| < 2 || s[0] != '(' || s[|s| - 1] != ')'
    ensures StripGroup(s).0.Capturing? ==> !("(?:" <= s)
  {
  }

  /** So many backslashes end a string, and no more. */
  lemma {:induction false} BackslashesMean(s: string)
    ensures Backslashes(s) <= |s|
    ensures forall i :: |s| - Backslashes(s) <= i < |s| ==> s[i] == '\\'
    ensures Backslashes(s) < |s| ==> s[|s| - Backslashes(s) - 1] != '\\'
  {
    if s != [] && s[|s| - 1] == '\\' {
      BackslashesMean(s[..|s| - 1]);
    }
  }

  /** Whether the regex engine itself compiles the pattern is a parameter. */
  method ValidateSafeNameRegex(pattern: string, compiles: bool, u: Tables) returns (r: Result<string, Error>)
    ensures r == if Parse(pattern, u).Raise? then Raise(Parse(pattern, u).error)
            else if !compiles then Raise(DoesNotCompile) else Ok(pattern)
    // The same without the parser: what is accepted, and in which order the checks come.
    ensures r.Ok? <==> |pattern| <= 256 && compiles
                       && exists tokens :: SafeTokens(tokens, u) && ShowAll(tokens) == Strip(pattern).1
    ensures r == Raise(TooLong) <==> |pattern| > 256
    ensures r == Raise(DoesNotCompile)
       <==> |pattern| <= 256 && !compiles
            && exists tokens :: SafeTokens(tokens, u) && ShowAll(tokens) == Strip(pattern).1
  {
    AcceptedMeans(Strip(pattern).1, u);
    NeverTooLong(Strip(pattern).1, true, 1, u);
    if |pattern| > MAX_LENGTH {
      return Raise(TooLong);
    }
    var expression := Unframe(pattern);
    var error := ValidateFlatAlternatives(expression, u);
    if error.Some? {
      return Raise(error.value);
    }
    if !compiles {
      return Raise(DoesNotCompile);
    }
    r := Ok(pattern);
  }
}
