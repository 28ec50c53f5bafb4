/** What accepted patterns match: no more than their own length, and, for an exact-name rule, exactly the name. */
module RegexMeaning {
  import opened Wrappers
  import opened SafeRegex
  import opened RegexValidator

  /** The engine's tables: letter escapes, character classes, case folding and word boundaries. */
  datatype Engine = Engine(tables: Tables, escape: (char, char) -> bool, class_: (string, bool, char) -> bool,
                           folds: (char, char) -> bool, boundary: (char, string, nat) -> bool)

  predicate ZeroWidth(t: Token) {
    t.Caret? || t.Dollar? || (t.Escape? && t.c in "AbBZ")
  }

  predicate AtEnd(value: string, i: nat) {
    i == |value| || (i + 1 == |value| && value[i] == '\n')
  }

  predicate Here(t: Token, value: string, i: nat, e: Engine)
    requires ZeroWidth(t)
  {
    match t
    case Caret => i == 0
    case Dollar => AtEnd(value, i)
    case Escape(c) => e.boundary(c, value, i)
  }

  predicate Same(d: char, c: char, icase: bool, e: Engine) {
    c == d || (icase && e.folds(d, c))
  }

  predicate One(t: Token, icase: bool, c: char, e: Engine) {
    match t
    case Plain(d) => if d == '.' then c != '\n' else Same(d, c, icase, e)
    case Escape(d) => if IsAlpha(d, e.tables) then e.escape(d, c) else Same(d, c, icase, e)
    case Class(text) => e.class_(text, icase, c)
    case _ => false
  }

  /** A branch matches the characters from i up to j. */
  predicate Spans(branch: seq<Token>, icase: bool, value: string, i: nat, j: nat, e: Engine) {
    if branch == [] then i == j
    else if ZeroWidth(branch[0]) then Here(branch[0], value, i, e) && Spans(branch[1..], icase, value, i, j, e)
    else i < |value| && One(branch[0], icase, value[i], e) && Spans(branch[1..], icase, value, i + 1, j, e)
  }

  /** The branches between the bars. */
  function Branches(tokens: seq<Token>): (r: seq<seq<Token>>)
    ensures r != []
  {
    if tokens == [] then [[]]
    else if tokens[0].Bar? then [[]] + Branches(tokens[1..])
    else
      var rest := Branches(tokens[1..]);
      [[tokens[0]] + rest[0]] + rest[1..]
  }

  ghost predicate BranchMatches(tokens: seq<Token>, icase: bool, value: string, i: nat, j: nat, e: Engine) {
    exists b :: 0 <= b < |Branches(tokens)| && Spans(Branches(tokens)[b], icase, value, i, j, e)
  }

  /** Without a group the outer anchors belong to the first and the last branch; with one, to all of them. */
  function Unfolded(p: Parsed): seq<Token> {
    (if p.frame.caret then [Caret] else []) + p.tokens + if p.frame.dollar then [Dollar] else []
  }

  ghost predicate MatchesAt(p: Parsed, value: string, i: nat, j: nat, e: Engine) {
    if p.frame.group.Ungrouped? then BranchMatches(Unfolded(p), p.frame.icase, value, i, j, e)
    else
      && (p.frame.caret ==> i == 0) && (p.frame.dollar ==> AtEnd(value, j))
      && BranchMatches(p.tokens, p.frame.icase, value, i, j, e)
  }

  ghost predicate Search(p: Parsed, value: string, e: Engine) {
    exists i: nat, j: nat :: MatchesAt(p, value, i, j, e)
  }

  // ---- Bounds ----------------------------------------------------------------------------------------

  lemma {:induction false} SpanIsShort(branch: seq<Token>, icase: bool, value: string, i: nat, j: nat, e: Engine)
    requires Spans(branch, icase, value, i, j, e)
    ensures i <= j <= i + |branch|
  {
    if branch != [] {
      SpanIsShort(branch[1..], icase, value, if ZeroWidth(branch[0]) then i else i + 1, j, e);
    }
  }

  lemma {:induction false} BranchesAreParts(tokens: seq<Token>, b: nat)
    requires b < |Branches(tokens)|
    ensures |Branches(tokens)[b]| <= |tokens|
  {
    if tokens != [] && b < |Branches(tokens[1..])| {
      BranchesAreParts(tokens[1..], b);
    }
    if tokens != [] && tokens[0].Bar? && b > 0 {
      BranchesAreParts(tokens[1..], b - 1);
    }
  }

  lemma {:induction false} FlatHasFewBranches(tokens: seq<Token>, atStart: bool, bars: nat, u: Tables)
    requires Flat(tokens, atStart, bars, u)
    ensures |Branches(tokens)| <= bars + 1
  {
    if tokens != [] {
      FlatHasFewBranches(tokens[1..], tokens[0].Bar?, if tokens[0].Bar? then bars - 1 else bars, u);
    }
  }

  lemma {:induction false} TokensAreShown(tokens: seq<Token>, atStart: bool, bars: nat, u: Tables)
    requires Flat(tokens, atStart, bars, u)
    ensures |tokens| <= |ShowAll(tokens)|
  {
    if tokens != [] {
      TokensAreShown(tokens[1..], tokens[0].Bar?, if tokens[0].Bar? then bars - 1 else bars, u);
    }
  }

  /** An accepted pattern has few branches, and no match of it is longer than the pattern itself. */
  lemma AcceptedMatchesAreShort(pattern: string, value: string, i: nat, j: nat, e: Engine)
    requires Parse(pattern, e.tables).Ok? && MatchesAt(Parse(pattern, e.tables).value, value, i, j, e)
    ensures i <= j <= i + |pattern| && |pattern| <= MAX_LENGTH
    ensures |Branches(Parse(pattern, e.tables).value.tokens)| <= MAX_ALTERNATIVES
  {
    var p := Parse(pattern, e.tables).value;
    AcceptedPatternIsFramedFlat(pattern, e.tables);
    FlatHasFewBranches(p.tokens, true, MAX_ALTERNATIVES - 1, e.tables);
    TokensAreShown(p.tokens, true, MAX_ALTERNATIVES - 1, e.tables);
    var tokens := if p.frame.group.Ungrouped? then Unfolded(p) else p.tokens;
    assert |tokens| <= |pattern|;
    var b :| 0 <= b < |Branches(tokens)| && Spans(Branches(tokens)[b], p.frame.icase, value, i, j, e);
    BranchesAreParts(tokens, b);
    SpanIsShort(Branches(tokens)[b], p.frame.icase, value, i, j, e);
  }

  // ---- Exact-name rules ------------------------------------------------------------------------------

  /** The characters that the standard library's escaping puts a backslash before. */
  const SPECIAL := "()[]{}?*+-|^$\\.&~# \t\n\r\U{0B}\U{0C}"

  lemma SpecialMeans(c: char)
    ensures c in SPECIAL
       <==> || c == '(' || c == ')' || c == '[' || c == ']' || c == '{' || c == '}' || c == '?' || c == '*' || c == '+'
            || c == '-' || c == '|' || c == '^' || c == '$' || c as int == 92 || c == '.' || c == '&' || c == '~'
            || c == '#' || c == ' ' || 9 <= c as int <= 13
  {
  }

  function TokenOf(c: char): Token {
    if c in SPECIAL then Escape(c) else Plain(c)
  }

  function NameTokens(name: string): seq<Token> {
    if name == "" then [] else [TokenOf(name[0])] + NameTokens(name[1..])
  }

  function Escaped(c: char): string {
    if c in SPECIAL then ['\\', c] else [c]
  }

  lemma EscapedIsShown(c: char)
    ensures Escaped(c) == Show(TokenOf(c)) && (Escaped(c) == ['\\', c] || (Escaped(c) == [c] && c != '\\' && c != '('))
  {
  }

  function EscapeName(name: string): string {
    if name == "" then "" else EscapeName(name[..|name| - 1]) + Escaped(name[|name| - 1])
  }

  function ExactRule(name: string): string {
    "^" + EscapeName(name) + "$"
  }

  lemma {:induction false} ShowConcat(a: seq<Token>, b: seq<Token>)
    ensures ShowAll(a + b) == ShowAll(a) + ShowAll(b)
  {
    if a == [] {
      assert a + b == b;
    } else {
      ShowConcat(a[1..], b);
      ShowAfter(a, b);
      Associate(Show(a[0]), ShowAll(a[1..]), ShowAll(b));
    }
  }

  lemma ShowAfter(a: seq<Token>, b: seq<Token>)
    requires a != []
    ensures ShowAll(a + b) == Show(a[0]) + ShowAll(a[1..] + b)
  {
    ShowFront(a[0], a[1..] + b);
    assert a + b == [a[0]] + (a[1..] + b);
  }

  lemma Associate(a: string, b: string, c: string)
    ensures a + (b + c) == a + b + c
  {
  }

  lemma {:induction false} NameTokensLast(name: string)
    requires name != ""
    ensures NameTokens(name) == NameTokens(name[..|name| - 1]) + [TokenOf(name[|name| - 1])]
  {
    var n := |name| - 1;
    if n > 0 {
      NameTokensLast(name[1..]);
      assert name[1..][..n - 1] == name[..n][1..];
    } else {
      assert name[..0] == "" && name[1..] == "";
    }
  }

  lemma ShowOne(t: Token)
    ensures ShowAll([t]) == Show(t)
  {
    ShowFront(t, []);
    assert [t] + [] == [t];
  }

  lemma {:induction false} EscapedNameShowsTokens(name: string)
    ensures ShowAll(NameTokens(name)) == EscapeName(name)
  {
    if name != "" {
      var n := |name| - 1;
      EscapedNameShowsTokens(name[..n]);
      NameTokensLast(name);
      ShowConcat(NameTokens(name[..n]), [TokenOf(name[n])]);
      EscapedIsShown(name[n]);
      ShowOne(TokenOf(name[n]));
    }
  }

  lemma NameTokenIsToken(c: char, u: Tables)
    ensures IsToken(TokenOf(c), u) && !ZeroWidth(TokenOf(c))
    ensures TokenOf(c).Escape? || TokenOf(c).Plain?
  {
    SpecialIsNoLetter(c, u);
  }

  lemma SpecialIsNoLetter(c: char, u: Tables)
    ensures c in SPECIAL ==> c < 128 as char && !IsAlpha(c, u) && !IsDigit(c, u)
  {
  }

  lemma NameTokenMatches(c: char, d: char, e: Engine)
    ensures One(TokenOf(c), false, d, e) <==> d == c
  {
  }

  lemma {:induction false} NameTokensAreFlat(name: string, atStart: bool, bars: nat, u: Tables)
    ensures Flat(NameTokens(name), atStart, bars, u)
  {
    if name != "" {
      NameTokenIsToken(name[0], u);
      NameTokensAreFlat(name[1..], false, bars, u);
      FlatFront(TokenOf(name[0]), NameTokens(name[1..]), atStart, bars, u);
    }
  }

  /** Escaping leaves no backslash that could escape what follows. */
  lemma {:induction false} EscapedNameEndsEven(name: string)
    ensures Backslashes(EscapeName(name)) % 2 == 0
  {
    if name != "" {
      var n := |name| - 1;
      EscapedNameEndsEven(name[..n]);
      EscapedIsShown(name[n]);
      BackslashesAfter(EscapeName(name[..n]), name[n], Escaped(name[n]));
    }
  }

  lemma BackslashesAfter(front: string, c: char, shown: string)
    requires Backslashes(front) % 2 == 0
    requires shown == ['\\', c] || (shown == [c] && c != '\\')
    ensures Backslashes(front + shown) % 2 == 0
  {
    BackslashesAfterOne(front, c);
    if shown == ['\\', c] {
      BackslashesAfterOne(front, '\\');
      BackslashesAfterOne(front + ['\\'], c);
      assert front + ['\\', c] == front + ['\\'] + [c];
    }
  }

  lemma BackslashesAfterOne(front: string, c: char)
    ensures Backslashes(front + [c]) == if c == '\\' then Backslashes(front) + 1 else 0
  {
    assert (front + [c])[..|front|] == front;
  }

  lemma EscapedNameOpensNoGroup(name: string)
    ensures !("(" <= EscapeName(name))
  {
    EscapedNameShowsTokens(name);
    if name != "" {
      EscapedIsShown(name[0]);
      ShowFront(TokenOf(name[0]), NameTokens(name[1..]));
      var rest := ShowAll(NameTokens(name[1..]));
      assert EscapeName(name) == Escaped(name[0]) + rest;
      assert EscapeName(name)[0] == Escaped(name[0])[0];
    }
  }

  lemma ExactRuleStrips(name: string)
    ensures Strip(ExactRule(name)) == (Frame(false, true, true, Ungrouped), EscapeName(name))
  {
    var body := EscapeName(name);
    EscapedNameEndsEven(name);
    EscapedNameOpensNoGroup(name);
    assert ExactRule(name) == "^" + (body + "$");
    StripsAnchors(body);
    StripsNoGroup(body);
  }

  lemma StripsNoGroup(body: string)
    requires !("(" <= body)
    ensures StripGroup(body) == (Ungrouped, body)
  {
    assert "(?:"[0] == '(';
  }

  lemma StripsAnchors(body: string)
    requires Backslashes(body) % 2 == 0
    ensures var s := "^" + (body + "$");
            StripFlag(s) == (false, s) && StripCaret(s) == (true, body + "$") && StripDollar(body + "$") == (true, body)
  {
    var rest := body + "$";
    var s := "^" + rest;
    assert s[0] == '^' && "(?i)"[0] == '(';
    assert s[1..] == rest && rest[..|body|] == body;
  }

  lemma ExactRuleParses(name: string, u: Tables)
    ensures Parse(ExactRule(name), u) ==
              if |EscapeName(name)| + 2 > MAX_LENGTH then Raise(TooLong)
              else Ok(Parsed(Frame(false, true, true, Ungrouped), NameTokens(name)))
  {
    ExactRuleStrips(name);
    EscapedNameShowsTokens(name);
    NameTokensAreFlat(name, true, MAX_ALTERNATIVES - 1, u);
    FlatIsAccepted(NameTokens(name), true, 1, u);
  }

  lemma {:induction false} OneBranch(tokens: seq<Token>)
    requires forall t :: t in tokens ==> !t.Bar?
    ensures Branches(tokens) == [tokens]
  {
    if tokens != [] {
      OneBranch(tokens[1..]);
      assert [tokens[0]] + tokens[1..] == tokens;
    }
  }

  lemma {:induction false} NameTokensHaveNoBar(name: string)
    ensures forall t :: t in NameTokens(name) ==> !t.Bar?
  {
    if name != "" {
      NameTokensHaveNoBar(name[1..]);
    }
  }

  /** The tokens of a name match from i exactly if the name stands there and the value ends after it. */
  lemma {:induction false} NameSpans(name: string, value: string, i: nat, j: nat, e: Engine)
    ensures Spans(NameTokens(name) + [Dollar], false, value, i, j, e)
        <==> AtEnd(value, j) && j == i + |name| && value[i..j] == name
  {
    if name == "" {
      assert NameTokens(name) + [Dollar] == [Dollar];
    } else {
      NameSpans(name[1..], value, i + 1, j, e);
      FirstSpans(name, value, i, j, e);
      if AtEnd(value, j) && j == i + |name| {
        FirstStands(name, value, i, j);
      }
    }
  }

  lemma FirstSpans(name: string, value: string, i: nat, j: nat, e: Engine)
    requires name != ""
    ensures Spans(NameTokens(name) + [Dollar], false, value, i, j, e)
       <==> i < |value| && value[i] == name[0] && Spans(NameTokens(name[1..]) + [Dollar], false, value, i + 1, j, e)
  {
    var t, rest := TokenOf(name[0]), NameTokens(name[1..]) + [Dollar];
    NameTokenIsToken(name[0], e.tables);
    if i < |value| {
      NameTokenMatches(name[0], value[i], e);
    }
    assert NameTokens(name) + [Dollar] == [t] + rest && ([t] + rest)[1..] == rest;
  }

  lemma FirstStands(name: string, value: string, i: nat, j: nat)
    requires name != "" && i + |name| == j <= |value|
    ensures value[i..j] == name <==> value[i] == name[0] && value[i + 1..j] == name[1..]
  {
    assert value[i..j] == [value[i]] + value[i + 1..j] && name == [name[0]] + name[1..];
  }

  lemma ExactRuleMatchesAt(name: string, value: string, i: nat, j: nat, e: Engine)
    ensures MatchesAt(Parsed(Frame(false, true, true, Ungrouped), NameTokens(name)), value, i, j, e)
       <==> i == 0 && j == |name| && AtEnd(value, j) && value[..j] == name
  {
    RuleIsOneBranch(name);
    CaretFirst(NameTokens(name) + [Dollar], value, i, j, e);
    NameSpans(name, value, 0, j, e);
    var p := Parsed(Frame(false, true, true, Ungrouped), NameTokens(name));
    OnlyBranch(Unfolded(p), [Caret] + (NameTokens(name) + [Dollar]), value, i, j, e);
  }

  lemma OnlyBranch(tokens: seq<Token>, branch: seq<Token>, value: string, i: nat, j: nat, e: Engine)
    requires Branches(tokens) == [branch]
    ensures BranchMatches(tokens, false, value, i, j, e) <==> Spans(branch, false, value, i, j, e)
  {
    assert Branches(tokens)[0] == branch;
  }

  lemma CaretFirst(rest: seq<Token>, value: string, i: nat, j: nat, e: Engine)
    ensures Spans([Caret] + rest, false, value, i, j, e) <==> i == 0 && Spans(rest, false, value, 0, j, e)
  {
    assert ([Caret] + rest)[1..] == rest;
  }

  lemma RuleIsOneBranch(name: string)
    ensures Branches(Unfolded(Parsed(Frame(false, true, true, Ungrouped), NameTokens(name))))
            == [[Caret] + (NameTokens(name) + [Dollar])]
  {
    NameTokensHaveNoBar(name);
    var tokens := [Caret] + (NameTokens(name) + [Dollar]);
    assert Unfolded(Parsed(Frame(false, true, true, Ungrouped), NameTokens(name))) == tokens;
    OneBranch(tokens);
  }

  /**
    A generated rule is accepted exactly if it is not too long, and matches the name, alone or
    before one closing newline.
   */
  lemma ExactRuleMatchesExactlyTheName(name: string, value: string, e: Engine)
    ensures Parse(ExactRule(name), e.tables).Ok? <==> |ExactRule(name)| <= MAX_LENGTH
    ensures |ExactRule(name)| <= MAX_LENGTH ==>
              (Search(Parse(ExactRule(name), e.tables).value, value, e) <==> value == name || value == name + "\n")
  {
    ExactRuleParses(name, e.tables);
    var p := Parsed(Frame(false, true, true, Ungrouped), NameTokens(name));
    forall i: nat, j: nat
      ensures MatchesAt(p, value, i, j, e) <==> i == 0 && j == |name| && (value == name || value == name + "\n")
    {
      ExactRuleMatchesAt(name, value, i, j, e);
      NameThenEnd(name, value, j);
    }
    assert value == name || value == name + "\n" ==> MatchesAt(p, value, 0, |name|, e);
  }

  lemma NameThenEnd(name: string, value: string, j: nat)
    ensures j == |name| && AtEnd(value, j) && value[..j] == name
        <==> j == |name| && (value == name || value == name + "\n")
  {
    if j == |name| && j + 1 == |value| && value[j] == '\n' && value[..j] == name {
      assert value == value[..j] + [value[j]];
    }
    assert (name + "\n")[..|name|] == name;
  }
}
