/**
 * The token vocabulary of DML and its classifiers (Dml/Parse/DmlTokens.cs).
 *
 * The two regular expressions are given twice: as the language the .NET
 * pattern accepts (ghost, written after the pattern) and as the check the
 * model runs, with a lemma that the two agree. Neither pattern is anchored at
 * the start, and .NET's `$` also matches just before a final newline.
 */
module DmlTokens {
  import opened Exceptions
  import BuiltinsDict

  const PLUS := "+"
  const MINUS := "-"
  const STAR := "*"
  const SLASH := "/"
  const BSLASH := "\\"
  const PERCENT := "%"
  const CIRCUMFLEX := "^"
  const TILDE := "~"
  const AT := "@"
  const DOLLAR := "$"
  const AMPERSAND := "&"
  const VBAR := "|"
  const BANG := "!"
  const HASH := "#"
  const NEWLINE := "\n"
  const QUOTE := "\""
  const LPAR := "("
  const RPAR := ")"
  const LBRACE := "{"
  const RBRACE := "}"
  const LSQUARE := "["
  const RSQUARE := "]"
  const LANGLE := "<"
  const RANGLE := ">"
  const COMMA := ","
  const DOT := "."
  const EOL := ";"
  const EQUAL := "="
  const DBLEQUAL := "=="
  const NOTEQUAL := "!="
  const LTEQ := "<="
  const GTEQ := ">="
  const DBLAND := "&&"
  const DBLVBAR := "||"
  const TRANSOP := "\\>"
  const ELLIPSES := "..."
  const UNARY_NEG := "u-"
  const UNARY_ABS := "u~"

  /** Pattern names understood by `IsMatch`. */
  const NUMBER := "[0-9]+(\\.[0-9]+)?$"
  const UQNAME := "[a-zA-Z_][a-zA-Z0-9_]*$"
  const KEYWORD := "KEYWORD"
  const BUILTIN := "BUILTIN"

  const KW_TRUE := "True"
  const KW_FALSE := "False"
  const KW_NULL := "Null"
  const KW_ASSIGN := "Assign"
  const KW_RANGE := "Range"
  const KW_BULLET := "Bullet"
  const KW_PATTERN := "Pattern"
  const KW_TIMELINE := "Timeline"
  const KW_INIT := "Init"
  const KW_UPDATE := "Update"
  const KW_CHILDREN := "Children"
  const KW_LAMBDA := "Lambda"

  const INTRINSIC_DIRECTION := "Direction"
  const INTRINSIC_SPEED := "Speed"
  const INTRINSIC_COLOUR := "Colour"
  const INTRINSIC_SPRITE := "Sprite"
  const INTRINSIC_POSITION := "Position"
  const INTRINSIC_ORIGIN := "Origin"
  const INTRINSIC_VELOCITY := "Velocity"
  const INTRINSIC_TIME := "Time"

  /** Every token the tokenizer splits off on its own; it also lists the two-character tokens. */
  const SINGLE_CHAR_TOKENS: seq<string> := [
      PLUS, MINUS, STAR, SLASH, BSLASH, PERCENT, CIRCUMFLEX, TILDE, AT, DOLLAR, AMPERSAND, VBAR,
      BANG, HASH, NEWLINE, QUOTE, LPAR, RPAR, LBRACE, RBRACE, LSQUARE, RSQUARE, LANGLE, RANGLE,
      COMMA, DOT, EOL, EQUAL, DBLEQUAL, DBLAND, DBLVBAR, GTEQ, LTEQ, TRANSOP
    ]

  /** Whether `c` on its own is one of SINGLE_CHAR_TOKENS, decided on the character. */
  predicate IsSingleCharToken(c: char) {
    c == '+' || c == '-' || c == '*' || c == '/' || c == '\\' || c == '%' || c == '^' || c == '~'
    || c == '@' || c == '$' || c == '&' || c == '|' || c == '!' || c == '#' || c == '\n'
    || c == '\"' || c == '(' || c == ')' || c == '{' || c == '}' || c == '[' || c == ']' || c == '<'
    || c == '>' || c == ',' || c == '.' || c == ';' || c == '='
  }

  const DOUBLE_CHAR_TOKENS: seq<string> := [DBLEQUAL, LTEQ, GTEQ, DBLAND, DBLVBAR, TRANSOP]

  const TRIPLE_CHAR_TOKENS: seq<string> := [ELLIPSES]

  const KEYWORDS: seq<string> := [
      KW_TRUE, KW_FALSE, KW_NULL, KW_ASSIGN, KW_RANGE, KW_BULLET, KW_PATTERN, KW_TIMELINE,
      KW_INIT, KW_UPDATE, KW_CHILDREN, KW_LAMBDA
    ]

  /** `IsOperator`: membership in one of the three token lists, decided by length first. */
  predicate IsOperator(e: string) {
    (|e| == 1 && IsSingleCharToken(e[0])) || (|e| == 2 && e in DOUBLE_CHAR_TOKENS) || e == ELLIPSES
  }

  lemma SingleCharTokenInList(c: char)
    ensures IsSingleCharToken(c) <==> [c] in SINGLE_CHAR_TOKENS
  {
  }

  /** `IsOperator` is exactly membership in SINGLE_CHAR_TOKENS, DOUBLE_CHAR_TOKENS or TRIPLE_CHAR_TOKENS. */
  lemma IsOperatorMatchesLists(e: string)
    ensures IsOperator(e) <==> e in SINGLE_CHAR_TOKENS || e in DOUBLE_CHAR_TOKENS || e in TRIPLE_CHAR_TOKENS
  {
    OperatorListsByLength(e);
  }

  /** SINGLE_CHAR_TOKENS holds the one-character tokens and, again, the two-character ones. */
  lemma OperatorListsByLength(e: string)
    ensures e in SINGLE_CHAR_TOKENS <==> (|e| == 1 && IsSingleCharToken(e[0])) || (|e| == 2 && e in DOUBLE_CHAR_TOKENS)
    ensures e in TRIPLE_CHAR_TOKENS <==> e == ELLIPSES
    ensures e in DOUBLE_CHAR_TOKENS ==> |e| == 2
  {
    forall k | 0 <= k < |SINGLE_CHAR_TOKENS|
      ensures |SINGLE_CHAR_TOKENS[k]| == 1 || SINGLE_CHAR_TOKENS[k] in DOUBLE_CHAR_TOKENS
    {
    }
    if |e| == 1 {
      assert e == [e[0]];
      SingleCharTokenInList(e[0]);
    } else if e in DOUBLE_CHAR_TOKENS {
      assert SINGLE_CHAR_TOKENS[28..] == [DBLEQUAL, DBLAND, DBLVBAR, GTEQ, LTEQ, TRANSOP];
    }
  }

  predicate IsDigit(c: char) {
    '0' <= c <= '9'
  }

  predicate IsNameStart(c: char) {
    'a' <= c <= 'z' || 'A' <= c <= 'Z' || c == '_'
  }

  predicate IsNameChar(c: char) {
    IsNameStart(c) || IsDigit(c)
  }

  // ---- the languages of the two patterns ----

  ghost predicate AllDigits(w: string) {
    |w| > 0 && forall i :: 0 <= i < |w| ==> IsDigit(w[i])
  }

  /** `w` is matched in full by `[0-9]+(\.[0-9]+)?`. */
  ghost predicate NumberText(w: string) {
    AllDigits(w) || exists k :: 0 < k < |w| && w[k] == '.' && AllDigits(w[..k]) && AllDigits(w[k + 1..])
  }

  /** `w` is matched in full by `[a-zA-Z_][a-zA-Z0-9_]*`. */
  ghost predicate NameText(w: string) {
    |w| > 0 && IsNameStart(w[0]) && forall i :: 1 <= i < |w| ==> IsNameChar(w[i])
  }

  /** The positions where `$` matches when no Multiline option is given. */
  ghost predicate DollarAt(s: string, e: int) {
    e == |s| || (0 <= e == |s| - 1 && s[e] == '\n')
  }

  /** `Regex.IsMatch(s, NUMBER)`: some substring that ends where `$` matches is number text. */
  ghost predicate MatchesNumberPattern(s: string) {
    exists b, e :: 0 <= b <= e <= |s| && DollarAt(s, e) && NumberText(s[b..e])
  }

  /** `Regex.IsMatch(s, UQNAME)`. */
  ghost predicate MatchesNamePattern(s: string) {
    exists b, e :: 0 <= b <= e <= |s| && DollarAt(s, e) && NameText(s[b..e])
  }

  // ---- the checks the model runs ----

  /** Where a match must end: before a final newline, else at the end. */
  function PatternEnd(s: string): (e: nat)
    ensures e <= |s| && DollarAt(s, e)
  {
    if |s| > 0 && s[|s| - 1] == '\n' then |s| - 1 else |s|
  }

  predicate IsNumber(s: string) {
    var e := PatternEnd(s);
    e > 0 && IsDigit(s[e - 1])
  }

  /** Some name text ends exactly at position `e` of `s`. */
  predicate NameEndsAt(s: string, e: nat)
    requires e <= |s|
  {
    e > 0 && IsNameChar(s[e - 1]) && (IsNameStart(s[e - 1]) || NameEndsAt(s, e - 1))
  }

  predicate MatchesUqName(s: string) {
    NameEndsAt(s, PatternEnd(s))
  }

  /** The last character of number text is a digit. */
  lemma NumberTextEndsInDigit(w: string)
    requires NumberText(w)
    ensures |w| > 0 && IsDigit(w[|w| - 1])
  {
    if !AllDigits(w) {
      var k :| 0 < k < |w| && w[k] == '.' && AllDigits(w[..k]) && AllDigits(w[k + 1..]);
      var tail := w[k + 1..];
      assert tail[|tail| - 1] == w[|w| - 1];
    }
  }

  /** `IsNumber` accepts exactly the strings the NUMBER pattern matches. */
  lemma IsNumberMatchesPattern(s: string)
    ensures IsNumber(s) <==> MatchesNumberPattern(s)
  {
    var e := PatternEnd(s);
    if IsNumber(s) {
      assert AllDigits(s[e - 1..e]);
      assert NumberText(s[e - 1..e]);
    }
    if MatchesNumberPattern(s) {
      var b, e' :| 0 <= b <= e' <= |s| && DollarAt(s, e') && NumberText(s[b..e']);
      NumberTextEndsInDigit(s[b..e']);
      assert s[b..e'][e' - b - 1] == s[e' - 1];
    }
  }

  lemma {:induction false} NameEndsAtText(s: string, e: nat)
    requires e <= |s|
    ensures NameEndsAt(s, e) <==> exists b :: 0 <= b < e && NameText(s[b..e])
  {
    if e > 0 {
      NameEndsAtText(s, e - 1);
      if NameEndsAt(s, e) {
        if IsNameStart(s[e - 1]) {
          assert NameText(s[e - 1..e]);
        } else {
          var b :| 0 <= b < e - 1 && NameText(s[b..e - 1]);
          var v, w := s[b..e - 1], s[b..e];
          forall i | 1 <= i < |w|
            ensures IsNameChar(w[i])
          {
            if i < |v| {
              assert w[i] == v[i];
            }
          }
          assert NameText(w);
        }
      }
      if exists b :: 0 <= b < e && NameText(s[b..e]) {
        var b :| 0 <= b < e && NameText(s[b..e]);
        assert s[b..e][e - 1 - b] == s[e - 1];
        if b < e - 1 {
          var v, w := s[b..e - 1], s[b..e];
          forall i | 1 <= i < |v|
            ensures IsNameChar(v[i])
          {
            assert v[i] == w[i];
          }
          assert v[0] == w[0];
          assert NameText(v);
        }
      }
    }
  }

  /** `MatchesUqName` accepts exactly the strings the UQNAME pattern matches. */
  lemma UqNameMatchesPattern(s: string)
    ensures MatchesUqName(s) <==> MatchesNamePattern(s)
  {
    var e := PatternEnd(s);
    NameEndsAtText(s, e);
    if MatchesUqName(s) {
      var b :| 0 <= b < e && NameText(s[b..e]);
    }
    if MatchesNamePattern(s) {
      var b, e' :| 0 <= b <= e' <= |s| && DollarAt(s, e') && NameText(s[b..e']);
      assert s[b..e'][e' - 1 - b] == s[e' - 1];
      assert e' == e;
    }
  }

  /** Without a start anchor, any text that ends in a digit is a number token. */
  lemma NumberPatternIsUnanchored(prefix: string, d: char)
    requires IsDigit(d)
    ensures IsNumber(prefix + [d]) && MatchesNumberPattern(prefix + [d])
  {
    IsNumberMatchesPattern(prefix + [d]);
  }

  predicate IsKeyword(e: string) {
    e in KEYWORDS
  }

  predicate IsBuiltin(e: string) {
    BuiltinsDict.Lookup(e).Some?
  }

  predicate IsBehaviour(e: string) {
    e in BuiltinsDict.Behaviours
  }

  /** An unqualified name that is not reserved by a keyword, a builtin or a behaviour. */
  predicate IsName(e: string) {
    MatchesUqName(e) && !IsKeyword(e) && !IsBuiltin(e) && !IsBehaviour(e)
  }

  predicate IsNonKeywordName(e: string) {
    !IsKeyword(e) && MatchesUqName(e)
  }

  /** `IsString`: indexing the first character of an empty token throws. */
  function IsString(e: string): (r: Result<bool>)
    ensures r.Throw? <==> e == ""
    ensures r.Ok? ==> (r.value <==> e[0] == '"' && e[|e| - 1] == '"')
  {
    if |e| == 0 then Throw(IndexOutOfRange) else Ok(e[0] == '"' && e[|e| - 1] == '"')
  }

  /** `IsMatch(expression, token)`: the four pattern names dispatch to a classifier, anything else is equality. */
  predicate IsMatch(e: string, token: string) {
    if token == UQNAME then IsName(e)
    else if token == KEYWORD then IsKeyword(e)
    else if token == BUILTIN then IsBuiltin(e)
    else if token == NUMBER then IsNumber(e)
    else e == token
  }

  /**
   * `IsMatch` on a token that may be null: the regular expressions and the
   * dictionary lookup throw ArgumentNull, the keyword list and string
   * equality answer false.
   */
  function IsMatchNullable(e: Option<string>, token: string): (r: Result<bool>)
    ensures e.Some? ==> r == Ok(IsMatch(e.value, token))
    ensures e.None? ==> (r.Throw? <==> token == UQNAME || token == BUILTIN || token == NUMBER)
    ensures r.Ok? && r.value ==> e.Some?
  {
    match e
    case Some(s) => Ok(IsMatch(s, token))
    case None =>
      if token == UQNAME || token == BUILTIN || token == NUMBER then Throw(ArgumentNull) else Ok(false)
  }

  /** `IsName` on a token that may be null. */
  function IsNameNullable(e: Option<string>): (r: Result<bool>)
    ensures r.Throw? <==> e.None?
    ensures r.Ok? ==> r.value == IsName(e.value)
  {
    match e
    case Some(s) => Ok(IsName(s))
    case None => Throw(ArgumentNull)
  }

  /** `IsMatch(expression, tokens)`: the first token that matches ends the search. */
  method IsMatchAny(e: string, tokens: seq<string>) returns (r: bool)
    ensures r <==> exists i :: 0 <= i < |tokens| && IsMatch(e, tokens[i])
  {
    var i := 0;
    while i < |tokens|
      invariant 0 <= i <= |tokens|
      invariant forall j :: 0 <= j < i ==> !IsMatch(e, tokens[j])
    {
      if IsMatch(e, tokens[i]) {
        return true;
      }
      i := i + 1;
    }
    return false;
  }

  /** `IsLeftBracket`: one of the four opening brackets. */
  predicate IsLeftBracket(e: string) {
    e == LPAR || e == LSQUARE || e == LBRACE || e == LANGLE
  }

  /** `IsRightBracket`: one of the four closing brackets. */
  predicate IsRightBracket(e: string) {
    e == RPAR || e == RSQUARE || e == RBRACE || e == RANGLE
  }

  /**
   * The bracket classifiers are `IsMatch` against the four bracket tokens of
   * their kind (none of which is a pattern name), and no token is both.
   */
  lemma BracketClasses(e: string)
    ensures IsLeftBracket(e) <==> IsMatch(e, LPAR) || IsMatch(e, LSQUARE) || IsMatch(e, LBRACE) || IsMatch(e, LANGLE)
    ensures IsRightBracket(e) <==> IsMatch(e, RPAR) || IsMatch(e, RSQUARE) || IsMatch(e, RBRACE) || IsMatch(e, RANGLE)
    ensures !(IsLeftBracket(e) && IsRightBracket(e))
  {
  }

  /** Names and number texts never collide with operator tokens, keywords or reserved names. */
  lemma ClassifiersSeparate(e: string)
    ensures IsNumber(e) ==> !IsOperator(e)
    ensures MatchesUqName(e) ==> !IsOperator(e)
    ensures IsName(e) ==> !IsKeyword(e) && !IsBuiltin(e)
    ensures IsNumber(e) ==> e != HASH && e != NEWLINE
  {
  }
}
