/**
 * The DML tokenizer (Dml/Parse/Tokenizer.cs). `Tokenize` compresses
 * whitespace, splits the text into tokens character by character, drops the
 * empty tokens and runs a second pass that removes comments, marks unary
 * operators and folds decimal numbers back together.
 *
 * The character step exists twice. `StepAsWritten` is the source's step.
 * `Step` differs in two places: an `=` that cannot merge with the token
 * before it starts a token of its own instead of being discarded, and a
 * character pairs with the token before the current one (`<=`, `->`, `&&`,
 * `...`) only while the current token is empty, so no character of the
 * current token is skipped over or overwritten. `Tokenize` uses `Step`.
 */
module Tokenizer {
  import opened Exceptions
  import opened DmlTokens
  import opened Sequences

  // ---------------------------------------------------------------------------
  // CompressWhitespace
  // ---------------------------------------------------------------------------

  /**
   * `CompressWhitespace` continued from a state: outside strings a run of
   * spaces and tabs becomes one space and carriage returns vanish; inside
   * strings every character is copied.
   */
  function Compress(s: string, seenWhitespace: bool, inString: bool): string
    decreases |s|
  {
    if |s| == 0 then ""
    else
      var c := s[0];
      if inString then [c] + Compress(s[1..], seenWhitespace, c != '"')
      else if c == '\r' then Compress(s[1..], seenWhitespace, false)
      else if c == ' ' || c == '\t' then
        (if seenWhitespace then "" else " ") + Compress(s[1..], true, false)
      else [c] + Compress(s[1..], false, c == '"')
  }

  function CompressWhitespace(input: string): string {
    Compress(input, false, false)
  }

  /**
   * The shape of compressed text, read with the same state: outside strings
   * there is no carriage return, no tab and no space right after a space.
   */
  ghost predicate Compressed(s: string, seenWhitespace: bool, inString: bool)
    decreases |s|
  {
    |s| == 0 ||
    var c := s[0];
    if inString then Compressed(s[1..], seenWhitespace, c != '"')
    else c != '\r' && c != '\t' && (c == ' ' ==> !seenWhitespace) &&
         Compressed(s[1..], c == ' ', c == '"')
  }

  lemma {:induction false} CompressIsCompressed(s: string, seen: bool, inString: bool)
    ensures Compressed(Compress(s, seen, inString), seen, inString)
    decreases |s|
  {
    if |s| > 0 {
      var c := s[0];
      var out := Compress(s, seen, inString);
      if inString {
        CompressIsCompressed(s[1..], seen, c != '"');
        assert out[1..] == Compress(s[1..], seen, c != '"');
      } else if c == '\r' {
        CompressIsCompressed(s[1..], seen, false);
      } else if c == ' ' || c == '\t' {
        CompressIsCompressed(s[1..], true, false);
        if !seen {
          assert out[0] == ' ';
          assert out[1..] == Compress(s[1..], true, false);
        } else {
          assert out == Compress(s[1..], true, false);
        }
      } else {
        CompressIsCompressed(s[1..], false, c == '"');
        assert out[1..] == Compress(s[1..], false, c == '"');
      }
    }
  }

  lemma {:induction false} CompressedIsFixpoint(s: string, seen: bool, inString: bool)
    requires Compressed(s, seen, inString)
    ensures Compress(s, seen, inString) == s
    decreases |s|
  {
    if |s| > 0 {
      var c := s[0];
      if inString {
        CompressedIsFixpoint(s[1..], seen, c != '"');
      } else {
        CompressedIsFixpoint(s[1..], c == ' ', c == '"');
        if c == ' ' {
          assert Compress(s, seen, inString) == " " + Compress(s[1..], true, false);
        }
      }
      assert s == [c] + s[1..];
    }
  }

  /** Compressing twice gives what compressing once gave. */
  lemma CompressWhitespaceIdempotent(input: string)
    ensures CompressWhitespace(CompressWhitespace(input)) == CompressWhitespace(input)
  {
    CompressIsCompressed(input, false, false);
    CompressedIsFixpoint(CompressWhitespace(input), false, false);
  }

  predicate IsBlank(c: char) {
    c == ' ' || c == '\t' || c == '\r'
  }

  /** The text without its spaces, tabs and carriage returns. */
  function NonBlank(s: string): (r: string)
    ensures |r| <= |s|
  {
    if |s| == 0 then ""
    else if IsBlank(s[0]) then NonBlank(s[1..])
    else [s[0]] + NonBlank(s[1..])
  }

  lemma NonBlankAppend(a: string, b: string)
    ensures NonBlank(a + b) == NonBlank(a) + NonBlank(b)
  {
    if |a| > 0 {
      assert (a + b)[0] == a[0];
      assert (a + b)[1..] == a[1..] + b;
      NonBlankAppend(a[1..], b);
    } else {
      assert a + b == b;
    }
  }

  /** Compression removes and rewrites only blanks: every other character survives, in order. */
  lemma {:induction false} CompressKeepsNonBlank(s: string, seen: bool, inString: bool)
    ensures NonBlank(Compress(s, seen, inString)) == NonBlank(s)
    decreases |s|
  {
    if |s| > 0 {
      var c := s[0];
      var rest := s[1..];
      assert s == [c] + rest;
      NonBlankAppend([c], rest);
      if inString {
        CompressKeepsNonBlank(rest, seen, c != '"');
        NonBlankAppend([c], Compress(rest, seen, c != '"'));
      } else if c == '\r' {
        CompressKeepsNonBlank(rest, seen, false);
      } else if c == ' ' || c == '\t' {
        CompressKeepsNonBlank(rest, true, false);
        NonBlankAppend(if seen then "" else " ", Compress(rest, true, false));
      } else {
        CompressKeepsNonBlank(rest, false, c == '"');
        NonBlankAppend([c], Compress(rest, false, c == '"'));
      }
    }
  }

  /**
   * The text without the blanks outside string literals: spaces, tabs and
   * carriage returns vanish there, and a literal is copied as it stands.
   */
  function Unblanked(s: string, inString: bool): string
    decreases |s|
  {
    if |s| == 0 then ""
    else
      var c := s[0];
      if inString then [c] + Unblanked(s[1..], c != '"')
      else if IsBlank(c) then Unblanked(s[1..], false)
      else [c] + Unblanked(s[1..], c == '"')
  }

  /**
   * Compression only rewrites blanks outside literals: dropping the spaces
   * it leaves gives the text without any of its blanks outside literals.
   */
  lemma {:induction false} CompressThenUnspaced(s: string, seen: bool, inString: bool)
    ensures Unspaced(Compress(s, seen, inString), inString) == Unblanked(s, inString)
    decreases |s|
  {
    if |s| > 0 {
      var c := s[0];
      var rest := s[1..];
      if inString {
        CompressThenUnspaced(rest, seen, c != '"');
        UnspacedCons(c, Compress(rest, seen, c != '"'), true);
      } else if c == '\r' {
        CompressThenUnspaced(rest, seen, false);
      } else if c == ' ' || c == '\t' {
        CompressThenUnspaced(rest, true, false);
        var tail := Compress(rest, true, false);
        if seen {
          assert Compress(s, seen, false) == tail;
        } else {
          assert Compress(s, seen, false) == [' '] + tail;
          UnspacedCons(' ', tail, false);
        }
      } else {
        CompressThenUnspaced(rest, false, c == '"');
        UnspacedCons(c, Compress(rest, false, c == '"'), false);
      }
    }
  }

  lemma UnspacedCons(c: char, x: string, inString: bool)
    ensures Unspaced([c] + x, inString) ==
      if inString then [c] + Unspaced(x, c != '"')
      else if c == ' ' then Unspaced(x, false)
      else [c] + Unspaced(x, c == '"')
  {
    assert ([c] + x)[0] == c && ([c] + x)[1..] == x;
  }

  /** From a seen blank, further blanks add nothing and the next character is copied as from a fresh start. */
  lemma {:induction false} CompressBlanksAfterBlank(b: string, y: string)
    requires forall i :: 0 <= i < |b| ==> IsBlank(b[i])
    requires |y| == 0 || !IsBlank(y[0])
    ensures Compress(b + y, true, false) == Compress(y, false, false)
    decreases |b|
  {
    if |b| == 0 {
      assert b + y == y;
    } else {
      assert (b + y)[0] == b[0] && (b + y)[1..] == b[1..] + y;
      CompressBlanksAfterBlank(b[1..], y);
    }
  }

  /**
   * A run of blanks that starts with a space or a tab becomes exactly one
   * space, or nothing right after another blank; the text after it is
   * compressed as from a fresh start.
   */
  lemma CompressBlankRun(b: string, y: string, seen: bool)
    requires |b| > 0 && (b[0] == ' ' || b[0] == '\t')
    requires forall i :: 0 <= i < |b| ==> IsBlank(b[i])
    requires |y| == 0 || !IsBlank(y[0])
    ensures Compress(b + y, seen, false) == (if seen then "" else " ") + Compress(y, false, false)
  {
    assert (b + y)[0] == b[0] && (b + y)[1..] == b[1..] + y;
    CompressBlanksAfterBlank(b[1..], y);
  }

  /** A string literal is copied verbatim, blanks and all, and compression resumes after it. */
  lemma CompressCopiesLiteral(body: string, y: string, seen: bool)
    requires forall i :: 0 <= i < |body| ==> body[i] != '"'
    ensures Compress(QUOTE + body + QUOTE + y, seen, false) == QUOTE + body + QUOTE + Compress(y, false, false)
  {
    var s := QUOTE + body + QUOTE + y;
    assert s[0] == '"' && s[1..] == body + QUOTE + y;
    CompressInsideLiteral(body, y);
  }

  lemma {:induction false} CompressInsideLiteral(body: string, y: string)
    requires forall i :: 0 <= i < |body| ==> body[i] != '"'
    ensures Compress(body + QUOTE + y, false, true) == body + QUOTE + Compress(y, false, false)
    decreases |body|
  {
    var s := body + QUOTE + y;
    if |body| == 0 {
      assert s[0] == '"' && s[1..] == y;
    } else {
      assert s[0] == body[0] && s[1..] == body[1..] + QUOTE + y;
      CompressInsideLiteral(body[1..], y);
      assert [body[0]] + body[1..] == body;
    }
  }

  // ---------------------------------------------------------------------------
  // The character-by-character split
  // ---------------------------------------------------------------------------

  /**
   * The tokenizer's state: the linked list of token builders, whose last
   * element is the token being built, and whether a string literal is open.
   */
  datatype Scan = Scan(toks: seq<string>, inString: bool)

  predicate Valid(st: Scan) {
    |st.toks| > 0
  }

  /** The token being built. */
  function Current(st: Scan): string
    requires Valid(st)
  {
    st.toks[|st.toks| - 1]
  }

  /** The four tokens an `=` extends: `<=`, `>=`, `==` and `!=`. */
  predicate ExtendsWithEqual(t: string) {
    t == LANGLE || t == RANGLE || t == EQUAL || t == BANG
  }

  /** Appends `c` to the token before the current one. */
  function ExtendPrevious(st: Scan, c: char): (r: Scan)
    requires |st.toks| >= 2
    ensures Valid(r) && |r.toks| == |st.toks|
  {
    var n := |st.toks|;
    Scan(st.toks[..n - 2] + [st.toks[n - 2] + [c], st.toks[n - 1]], st.inString)
  }

  /**
   * A character that pairs with nothing: it starts a token of its own (a
   * quote stays open as the current token, anything else is closed at once).
   */
  function StartToken(st: Scan, c: char): (r: Scan)
    requires Valid(st)
    ensures Valid(r)
  {
    var n := |st.toks|;
    var before := if |Current(st)| != 0 then st.toks else st.toks[..n - 1];
    if [c] == QUOTE then Scan(before + [[c]], true) else Scan(before + [[c], ""], false)
  }

  /**
   * Whether a character may pair with the token before the current one. The
   * source looks at that token whatever the current token holds; pairing
   * only from an empty current token keeps the text in order.
   */
  predicate MayPair(st: Scan, asWritten: bool)
    requires Valid(st)
  {
    asWritten || Current(st) == ""
  }

  /**
   * The branches shared by both steps: every character except an `=` that
   * reaches the single-character rules outside a string. The `Previous`
   * node is null when the list holds one builder, and `Previous.Previous`
   * when it holds two; dereferencing them throws NullReference.
   */
  function StepOther(st: Scan, c: char, asWritten: bool): (r: Result<Scan>)
    requires Valid(st)
    requires !(!st.inString && c == '=')
    ensures r.Ok? ==> Valid(r.value)
  {
    var n := |st.toks|;
    var cur := Current(st);
    var pair := MayPair(st, asWritten);
    if st.inString then
      if [c] == QUOTE then Ok(Scan(st.toks[..n - 1] + [cur + [c], ""], false))
      else Ok(Scan(st.toks[..n - 1] + [cur + [c]], true))
    else if IsSingleCharToken(c) then
      if c == '>' && n < 2 then Throw(NullReference)
      else if c == '>' && pair && (st.toks[n - 2] == MINUS || st.toks[n - 2] == BSLASH) then Ok(ExtendPrevious(st, c))
      else if (c == '&' || c == '|') && n < 2 then Throw(NullReference)
      else if (c == '&' || c == '|') && pair && st.toks[n - 2] == [c] then Ok(ExtendPrevious(st, c))
      else if c == '.' && n < 2 then Throw(NullReference)
      else if c == '.' && st.toks[n - 2] == DOT && n < 3 then Throw(NullReference)
      else if c == '.' && pair && st.toks[n - 2] == DOT && st.toks[n - 3] == DOT then
        Ok(Scan(st.toks[..n - 3] + [ELLIPSES, ""], false))
      else Ok(StartToken(st, c))
    else if c == ' ' then Ok(Scan(st.toks + [""], false))
    else Ok(Scan(st.toks[..n - 1] + [cur + [c]], false))
  }

  /**
   * The source's step. An `=` whose previous token has one character is
   * appended to it when that token is `<`, `>`, `=` or `!`, and otherwise
   * discarded.
   */
  function StepAsWritten(st: Scan, c: char): (r: Result<Scan>)
    requires Valid(st)
    ensures r.Ok? ==> Valid(r.value)
  {
    var n := |st.toks|;
    if !st.inString && c == '=' then
      if n < 2 then Throw(NullReference)
      else if |st.toks[n - 2]| == 1 then
        if ExtendsWithEqual(st.toks[n - 2]) then Ok(ExtendPrevious(st, c)) else Ok(st)
      else Ok(StartToken(st, c))
    else StepOther(st, c, true)
  }

  /**
   * The corrected step: an `=` that cannot extend the previous token starts
   * its own, and pairs form only from an empty current token.
   */
  function Step(st: Scan, c: char): (r: Result<Scan>)
    requires Valid(st)
    ensures r.Ok? ==> Valid(r.value)
  {
    var n := |st.toks|;
    if !st.inString && c == '=' then
      if n < 2 then Throw(NullReference)
      else if Current(st) == "" && ExtendsWithEqual(st.toks[n - 2]) then Ok(ExtendPrevious(st, c))
      else Ok(StartToken(st, c))
    else StepOther(st, c, false)
  }

  function ScanAllAsWritten(st: Scan, s: string): (r: Result<Scan>)
    requires Valid(st)
    ensures r.Ok? ==> Valid(r.value)
    decreases |s|
  {
    if |s| == 0 then Ok(st)
    else
      var st' :- StepAsWritten(st, s[0]);
      ScanAllAsWritten(st', s[1..])
  }

  function ScanAll(st: Scan, s: string): (r: Result<Scan>)
    requires Valid(st)
    ensures r.Ok? ==> Valid(r.value)
    decreases |s|
  {
    if |s| == 0 then Ok(st)
    else
      var st' :- Step(st, s[0]);
      ScanAll(st', s[1..])
  }

  /** The initial state: one empty builder. */
  const Start := Scan([""], false)

  /** Drops the empty builders, keeping the order of the others. */
  function NonEmpty(toks: seq<string>): (r: seq<string>)
    ensures |r| <= |toks|
    ensures forall i :: 0 <= i < |r| ==> r[i] != ""
    ensures forall t :: t in r <==> t in toks && t != ""
  {
    if |toks| == 0 then []
    else if toks[0] == "" then NonEmpty(toks[1..])
    else [toks[0]] + NonEmpty(toks[1..])
  }

  /**
   * The filter keeps a single token exactly when it is not empty and
   * distributes over concatenation: together, it is the order-preserving
   * filter of the non-empty tokens, duplicates included.
   */
  lemma {:induction false} NonEmptyAppend(a: seq<string>, b: seq<string>)
    ensures NonEmpty([]) == []
    ensures forall t :: NonEmpty([t]) == if t == "" then [] else [t]
    ensures NonEmpty(a + b) == NonEmpty(a) + NonEmpty(b)
    decreases |a|
  {
    forall t ensures NonEmpty([t]) == if t == "" then [] else [t] {
      NonEmptyOne(t);
    }
    if |a| == 0 {
      assert a + b == b;
    } else {
      ConsParts(a, b);
      NonEmptyAppend(a[1..], b);
    }
  }

  lemma NonEmptyOne(t: string)
    ensures NonEmpty([t]) == if t == "" then [] else [t]
  {
    assert [t][1..] == [];
  }

  /** The tokens written one after the other. */
  function Concat(toks: seq<string>): string {
    if |toks| == 0 then "" else toks[0] + Concat(toks[1..])
  }

  lemma {:induction false} ConcatAppend(a: seq<string>, b: seq<string>)
    ensures Concat(a + b) == Concat(a) + Concat(b)
    decreases |a|
  {
    if |a| == 0 {
      assert a + b == b;
    } else {
      assert (a + b)[0] == a[0] && (a + b)[1..] == a[1..] + b;
      ConcatAppend(a[1..], b);
    }
  }

  lemma ConcatSnoc(ts: seq<string>, t: string)
    ensures Concat(ts + [t]) == Concat(ts) + t
  {
    ConcatAppend(ts, [t]);
    assert Concat([t]) == t + Concat([]) by { assert [t][1..] == []; }
  }

  lemma ConcatSnoc2(ts: seq<string>, a: string, b: string)
    ensures Concat(ts + [a, b]) == Concat(ts) + a + b
  {
    assert ts + [a, b] == ts + [a] + [b];
    ConcatSnoc(ts, a);
    ConcatSnoc(ts + [a], b);
  }

  /** Dropping the empty tokens does not change the text they spell. */
  lemma {:induction false} NonEmptyKeepsText(toks: seq<string>)
    ensures Concat(NonEmpty(toks)) == Concat(toks)
    decreases |toks|
  {
    if |toks| > 0 {
      NonEmptyKeepsText(toks[1..]);
      if toks[0] != "" {
        ConcatAppend([toks[0]], NonEmpty(toks[1..]));
        assert Concat([toks[0]]) == toks[0] by { assert [toks[0]][1..] == []; }
      }
    }
  }

  /** The number of `=` characters in a text. */
  function EqualCount(s: string): nat {
    if |s| == 0 then 0 else (if s[0] == '=' then 1 else 0) + EqualCount(s[1..])
  }

  lemma EqualCountAppend(a: string, b: string)
    ensures EqualCount(a + b) == EqualCount(a) + EqualCount(b)
  {
    if |a| > 0 {
      assert (a + b)[0] == a[0];
      assert (a + b)[1..] == a[1..] + b;
      EqualCountAppend(a[1..], b);
    } else {
      assert a + b == b;
    }
  }

  /** The number of `=` characters held by a list of tokens. */
  function EqualsHeld(toks: seq<string>): nat {
    if |toks| == 0 then 0 else EqualsHeld(toks[..|toks| - 1]) + EqualCount(toks[|toks| - 1])
  }

  lemma EqualsHeldSnoc(toks: seq<string>, t: string)
    ensures EqualsHeld(toks + [t]) == EqualsHeld(toks) + EqualCount(t)
  {
    assert (toks + [t])[..|toks|] == toks;
  }

  predicate NoEqualsIn(t: string) {
    forall i :: 0 <= i < |t| ==> t[i] != '='
  }

  lemma EqualCountZero(t: string)
    requires NoEqualsIn(t)
    ensures EqualCount(t) == 0
  {
    if |t| > 0 {
      EqualCountZero(t[1..]);
    }
  }

  /** Appending `c` to the current token adds the `=` it may be. */
  lemma AppendToCurrentKeepsEquals(toks: seq<string>, c: char)
    requires |toks| > 0
    ensures var n := |toks|;
      EqualsHeld(toks[..n - 1] + [toks[n - 1] + [c]]) == EqualsHeld(toks) + (if c == '=' then 1 else 0)
  {
    var n := |toks|;
    var front, cur := toks[..n - 1], toks[n - 1];
    SnocSplit(toks);
    EqualsHeldSnoc(front, cur);
    EqualsHeldSnoc(front, cur + [c]);
    EqualCountAppend(cur, [c]);
    assert EqualCount([c]) == (if c == '=' then 1 else 0) by {
      assert [c][1..] == [];
    }
  }

  lemma ExtendPreviousKeepsEquals(st: Scan, c: char)
    requires |st.toks| >= 2
    ensures EqualsHeld(ExtendPrevious(st, c).toks) == EqualsHeld(st.toks) + (if c == '=' then 1 else 0)
  {
    var n := |st.toks|;
    var front := st.toks[..n - 2];
    var p := st.toks[n - 2];
    var cur := st.toks[n - 1];
    assert st.toks == front + [p] + [cur];
    EqualsHeldSnoc(front, p);
    EqualsHeldSnoc(front + [p], cur);
    EqualsHeldSnoc(front, p + [c]);
    EqualsHeldSnoc(front + [p + [c]], cur);
    assert ExtendPrevious(st, c).toks == front + [p + [c]] + [cur];
    EqualCountAppend(p, [c]);
  }

  lemma StartTokenKeepsEquals(st: Scan, c: char)
    requires Valid(st)
    ensures EqualsHeld(StartToken(st, c).toks) == EqualsHeld(st.toks) + (if c == '=' then 1 else 0)
  {
    var n := |st.toks|;
    var cur := Current(st);
    SnocSplit(st.toks);
    EqualsHeldSnoc(st.toks[..n - 1], cur);
    var before := if |cur| != 0 then st.toks else st.toks[..n - 1];
    assert EqualsHeld(before) == EqualsHeld(st.toks) by {
      if |cur| == 0 {
        assert EqualCount(cur) == 0;
      }
    }
    assert EqualCount([c]) == (if c == '=' then 1 else 0);
    EqualsHeldSnoc(before, [c]);
    EqualsHeldSnoc(before + [[c]], "");
    assert before + [[c], ""] == before + [[c]] + [""];
  }

  lemma EllipsisKeepsEquals(st: Scan)
    requires |st.toks| >= 3 && NoEqualsIn(Current(st))
    requires st.toks[|st.toks| - 2] == DOT && st.toks[|st.toks| - 3] == DOT
    ensures var n := |st.toks|;
      EqualsHeld(st.toks[..n - 3] + [ELLIPSES, ""]) == EqualsHeld(st.toks)
  {
    var n := |st.toks|;
    var front := st.toks[..n - 3];
    assert st.toks == front + [DOT] + [DOT] + [Current(st)];
    EqualsHeldSnoc(front, DOT);
    EqualsHeldSnoc(front + [DOT], DOT);
    EqualsHeldSnoc(front + [DOT] + [DOT], Current(st));
    EqualCountZero(Current(st));
    EqualsHeldSnoc(front, ELLIPSES);
    EqualsHeldSnoc(front + [ELLIPSES], "");
    assert front + [ELLIPSES, ""] == front + [ELLIPSES] + [""];
  }

  /** Neither unary marker of the second pass: `u-` and `u~` are never scanned. */
  predicate NotMarked(t: string) {
    t != UNARY_NEG && t != UNARY_ABS
  }

  /** A token that starts with a quote also ends with a later one. */
  predicate Closed(t: string) {
    |t| > 0 && t[0] == '"' ==> |t| >= 2 && t[|t| - 1] == '"'
  }

  /**
   * What the scan keeps true of its state: no token reads as a unary marker,
   * every token before the current one that opens a string literal closes
   * it, and the current token starts with a quote exactly when a string is
   * open.
   */
  predicate ScanInvariant(st: Scan) {
    Valid(st) &&
    (forall i :: 0 <= i < |st.toks| ==> NotMarked(st.toks[i])) &&
    (forall i :: 0 <= i < |st.toks| - 1 ==> Closed(st.toks[i])) &&
    (st.inString <==> |Current(st)| > 0 && Current(st)[0] == '"')
  }

  /**
   * The corrected step loses no `=`: outside a string it either extends the
   * previous token or starts its own, and inside a string it is copied.
   */
  lemma StepKeepsEquals(st: Scan, c: char)
    requires ScanInvariant(st)
    requires Step(st, c).Ok?
    ensures EqualsHeld(Step(st, c).value.toks) == EqualsHeld(st.toks) + (if c == '=' then 1 else 0)
  {
    if st.inString {
      StringStepKeepsEquals(st, c);
    } else if c == '=' {
      EqualSignKeepsEquals(st);
    } else if IsSingleCharToken(c) {
      PunctuationKeepsEquals(st, c);
    } else if c == ' ' {
      EqualsHeldSnoc(st.toks, "");
    } else {
      AppendToCurrentKeepsEquals(st.toks, c);
    }
  }

  /** Inside a string the character is copied, and a closing quote ends the token. */
  lemma StringStepKeepsEquals(st: Scan, c: char)
    requires ScanInvariant(st) && st.inString
    requires Step(st, c).Ok?
    ensures EqualsHeld(Step(st, c).value.toks) == EqualsHeld(st.toks) + (if c == '=' then 1 else 0)
  {
    var n := |st.toks|;
    AppendToCurrentKeepsEquals(st.toks, c);
    if [c] == QUOTE {
      EqualsHeldSnoc(st.toks[..n - 1] + [Current(st) + [c]], "");
      assert st.toks[..n - 1] + [Current(st) + [c], ""] == st.toks[..n - 1] + [Current(st) + [c]] + [""];
    }
  }

  /** An `=` outside a string extends the previous token or starts its own. */
  lemma EqualSignKeepsEquals(st: Scan)
    requires ScanInvariant(st) && !st.inString
    requires Step(st, '=').Ok?
    ensures EqualsHeld(Step(st, '=').value.toks) == EqualsHeld(st.toks) + 1
  {
    var n := |st.toks|;
    if Current(st) == "" && ExtendsWithEqual(st.toks[n - 2]) {
      ExtendPreviousKeepsEquals(st, '=');
    } else {
      StartTokenKeepsEquals(st, '=');
    }
  }

  /** A punctuation character outside a string holds no `=` and keeps every one before it. */
  lemma PunctuationKeepsEquals(st: Scan, c: char)
    requires ScanInvariant(st) && !st.inString && c != '=' && IsSingleCharToken(c)
    requires Step(st, c).Ok?
    ensures EqualsHeld(Step(st, c).value.toks) == EqualsHeld(st.toks)
  {
    var n := |st.toks|;
    if c == '>' || c == '&' || c == '|' {
      ExtendPreviousKeepsEquals(st, c);
      StartTokenKeepsEquals(st, c);
    } else if c == '.' && Current(st) == "" && st.toks[n - 2] == DOT && st.toks[n - 3] == DOT {
      EllipsisKeepsEquals(st);
    } else {
      StartTokenKeepsEquals(st, c);
    }
  }

  /** A token grown by a character that is neither `-` nor `~`, or one that starts with a quote, is no marker. */
  lemma AppendNotMarked(t: string, c: char)
    requires (c != '-' && c != '~') || (|t| > 0 && t[0] == '"')
    ensures NotMarked(t + [c])
  {
    if |t| > 0 {
      assert (t + [c])[0] == t[0];
    }
    assert (t + [c])[|t|] == c;
  }

  /** Tokens that are finished: none reads as a unary marker and each closes the literal it opens. */
  predicate Settled(toks: seq<string>) {
    forall i :: 0 <= i < |toks| ==> NotMarked(toks[i]) && Closed(toks[i])
  }

  /** The finished tokens of an invariant state, and all of them when no string is open. */
  lemma SettledPrefix(st: Scan, m: nat)
    requires ScanInvariant(st) && m < |st.toks|
    ensures Settled(st.toks[..m])
    ensures !st.inString ==> Settled(st.toks)
  {
  }

  /** A token that does not open a literal, grown by one character, opens none either. */
  lemma AppendClosed(t: string, c: char)
    requires |t| == 0 || t[0] != '"'
    requires |t| > 0 || c != '"'
    ensures Closed(t + [c])
  {
    assert (t + [c])[0] == if |t| > 0 then t[0] else c;
  }

  /** A state whose last token is still being built keeps the invariant. */
  lemma OpenInvariant(front: seq<string>, t: string, inString: bool)
    requires Settled(front) && NotMarked(t)
    requires inString <==> |t| > 0 && t[0] == '"'
    ensures ScanInvariant(Scan(front + [t], inString))
  {
    assert (front + [t])[..|front|] == front;
  }

  /** A state that has just finished a token and starts an empty one keeps the invariant. */
  lemma ClosedInvariant(front: seq<string>, t: string)
    requires Settled(front) && NotMarked(t) && Closed(t)
    ensures ScanInvariant(Scan(front + [t, ""], false))
  {
    assert Settled(front + [t]);
    OpenInvariant(front + [t], "", false);
    assert front + [t] + [""] == front + [t, ""];
  }

  /** Starting a token of its own keeps the invariant outside a string. */
  lemma StartTokenKeepsInvariant(st: Scan, c: char)
    requires ScanInvariant(st) && !st.inString
    ensures ScanInvariant(StartToken(st, c))
    ensures StartToken(st, c).inString == (c == '"')
  {
    var n := |st.toks|;
    var before := if |Current(st)| != 0 then st.toks else st.toks[..n - 1];
    SettledPrefix(st, n - 1);
    assert Settled(before);
    assert NotMarked([c]) by { assert |[c]| == 1; }
    if [c] == QUOTE {
      OpenInvariant(before, [c], true);
    } else {
      assert Closed([c]);
      ClosedInvariant(before, [c]);
    }
  }

  /** Pairing with the token before an empty current one keeps the invariant outside a string. */
  lemma ExtendPreviousKeepsInvariant(st: Scan, c: char)
    requires ScanInvariant(st) && !st.inString && |st.toks| >= 2 && Current(st) == ""
    requires c != '-' && c != '~' && c != '"'
    requires |st.toks[|st.toks| - 2]| == 0 || st.toks[|st.toks| - 2][0] != '"'
    ensures ScanInvariant(ExtendPrevious(st, c))
  {
    var n := |st.toks|;
    SettledPrefix(st, n - 2);
    AppendNotMarked(st.toks[n - 2], c);
    AppendClosed(st.toks[n - 2], c);
    ClosedInvariant(st.toks[..n - 2], st.toks[n - 2] + [c]);
  }

  /**
   * The corrected step keeps the invariant and follows string literals the
   * way compression does: a quote opens one outside a string and closes it
   * inside.
   */
  lemma StepKeepsInvariant(st: Scan, c: char)
    requires ScanInvariant(st)
    requires Step(st, c).Ok?
    ensures ScanInvariant(Step(st, c).value)
    ensures Step(st, c).value.inString == if st.inString then c != '"' else c == '"'
  {
    var n := |st.toks|;
    var cur := Current(st);
    var front := st.toks[..n - 1];
    SettledPrefix(st, n - 1);
    if st.inString {
      AppendNotMarked(cur, c);
      assert (cur + [c])[0] == cur[0];
      if c == '"' {
        assert (cur + [c])[|cur|] == c;
        ClosedInvariant(front, cur + [c]);
      } else {
        OpenInvariant(front, cur + [c], true);
      }
    } else if c == '=' {
      if cur == "" && ExtendsWithEqual(st.toks[n - 2]) {
        ExtendPreviousKeepsInvariant(st, c);
      } else {
        StartTokenKeepsInvariant(st, c);
      }
    } else if c == ' ' {
      OpenInvariant(st.toks, "", false);
    } else if !IsSingleCharToken(c) {
      AppendNotMarked(cur, c);
      AppendClosed(cur, c);
      OpenInvariant(front, cur + [c], false);
    } else if c == '>' || c == '&' || c == '|' {
      if n >= 2 && cur == "" && (st.toks[n - 2] == MINUS || st.toks[n - 2] == BSLASH || st.toks[n - 2] == [c]) {
        ExtendPreviousKeepsInvariant(st, c);
      }
      StartTokenKeepsInvariant(st, c);
    } else if c == '.' && n >= 3 && cur == "" && st.toks[n - 2] == DOT && st.toks[n - 3] == DOT {
      SettledPrefix(st, n - 3);
      ClosedInvariant(st.toks[..n - 3], ELLIPSES);
    } else {
      StartTokenKeepsInvariant(st, c);
    }
  }

  /** Pairing from an empty current token adds the character to the text. */
  lemma ExtendPreviousKeepsText(st: Scan, c: char)
    requires |st.toks| >= 2 && Current(st) == ""
    ensures Concat(ExtendPrevious(st, c).toks) == Concat(st.toks) + [c]
  {
    var n := |st.toks|;
    var front := st.toks[..n - 2];
    var p := st.toks[n - 2];
    assert st.toks == front + [p, ""];
    ConcatSnoc2(front, p, "");
    ConcatSnoc2(front, p + [c], "");
  }

  lemma StartTokenKeepsText(st: Scan, c: char)
    requires Valid(st)
    ensures Concat(StartToken(st, c).toks) == Concat(st.toks) + [c]
  {
    var n := |st.toks|;
    var front := st.toks[..n - 1];
    var cur := Current(st);
    SnocSplit(st.toks);
    ConcatSnoc(front, cur);
    var before := if |cur| != 0 then st.toks else front;
    assert Concat(before) == Concat(st.toks);
    ConcatSnoc(before, [c]);
    ConcatSnoc2(before, [c], "");
  }

  lemma EllipsisKeepsText(st: Scan)
    requires |st.toks| >= 3 && Current(st) == ""
    requires st.toks[|st.toks| - 2] == DOT && st.toks[|st.toks| - 3] == DOT
    ensures var n := |st.toks|;
      Concat(st.toks[..n - 3] + [ELLIPSES, ""]) == Concat(st.toks) + "."
  {
    var n := |st.toks|;
    var front := st.toks[..n - 3];
    assert st.toks == front + [DOT] + [DOT, ""];
    ConcatSnoc(front, DOT);
    ConcatSnoc2(front + [DOT], DOT, "");
    ConcatSnoc2(front, ELLIPSES, "");
  }

  /**
   * One corrected step adds its character to the text the tokens spell,
   * except a space outside a string, which only separates tokens.
   */
  lemma StepKeepsText(st: Scan, c: char)
    requires Valid(st)
    requires Step(st, c).Ok?
    ensures Concat(Step(st, c).value.toks) == Concat(st.toks) + (if !st.inString && c == ' ' then "" else [c])
  {
    if st.inString || (!IsSingleCharToken(c) && c != ' ' && c != '=') {
      AppendKeepsText(st, c);
    } else if c == ' ' {
      ConcatSnoc(st.toks, "");
    } else if c == '=' {
      EqualKeepsText(st);
    } else {
      PunctuationKeepsText(st, c);
    }
  }

  /** A character that joins the current token. */
  lemma AppendKeepsText(st: Scan, c: char)
    requires Valid(st)
    requires st.inString || (!IsSingleCharToken(c) && c != ' ' && c != '=')
    ensures Step(st, c).Ok? && Concat(Step(st, c).value.toks) == Concat(st.toks) + [c]
  {
    var n := |st.toks|;
    var cur := Current(st);
    var front := st.toks[..n - 1];
    SnocSplit(st.toks);
    ConcatSnoc(front, cur);
    ConcatSnoc(front, cur + [c]);
    ConcatSnoc2(front, cur + [c], "");
  }

  /** An `=` outside a string. */
  lemma EqualKeepsText(st: Scan)
    requires Valid(st) && !st.inString && Step(st, '=').Ok?
    ensures Concat(Step(st, '=').value.toks) == Concat(st.toks) + "="
  {
    var n := |st.toks|;
    if Current(st) == "" && ExtendsWithEqual(st.toks[n - 2]) {
      ExtendPreviousKeepsText(st, '=');
    } else {
      StartTokenKeepsText(st, '=');
    }
  }

  /** A single-character token other than `=`, outside a string. */
  lemma PunctuationKeepsText(st: Scan, c: char)
    requires Valid(st) && !st.inString && IsSingleCharToken(c) && c != '=' && Step(st, c).Ok?
    ensures Concat(Step(st, c).value.toks) == Concat(st.toks) + [c]
  {
    var n := |st.toks|;
    var cur := Current(st);
    if c == '.' && cur == "" && n >= 3 && st.toks[n - 2] == DOT && st.toks[n - 3] == DOT {
      EllipsisKeepsText(st);
    } else {
      StartTokenKeepsText(st, c);
      if cur == "" && n >= 2 {
        ExtendPreviousKeepsText(st, c);
      }
    }
  }

  /** Scanning a whole text with the corrected step keeps every `=` of the text. */
  lemma {:induction false} ScanAllKeepsEquals(st: Scan, s: string)
    requires ScanInvariant(st)
    requires ScanAll(st, s).Ok?
    ensures ScanInvariant(ScanAll(st, s).value)
    ensures EqualsHeld(ScanAll(st, s).value.toks) == EqualsHeld(st.toks) + EqualCount(s)
    decreases |s|
  {
    if |s| > 0 {
      StepKeepsEquals(st, s[0]);
      StepKeepsInvariant(st, s[0]);
      ScanAllKeepsEquals(Step(st, s[0]).value, s[1..]);
    }
  }

  /**
   * The text a scan keeps of `s`: every character except the spaces outside
   * string literals. `inString` tells whether a literal is open; a quote
   * opens one outside and closes it inside.
   */
  function Unspaced(s: string, inString: bool): string
    decreases |s|
  {
    if |s| == 0 then ""
    else
      var c := s[0];
      if inString then [c] + Unspaced(s[1..], c != '"')
      else if c == ' ' then Unspaced(s[1..], false)
      else [c] + Unspaced(s[1..], c == '"')
  }

  /** A quote opens a string literal outside one and closes it inside; nothing else changes that. */
  lemma StepTracksString(st: Scan, c: char)
    requires Valid(st) && Step(st, c).Ok?
    ensures Step(st, c).value.inString == if st.inString then c != '"' else c == '"'
  {
  }

  /** The text the corrected scan keeps, by induction on the text. */
  lemma {:induction false} ScanSpellsText(st: Scan, s: string)
    requires Valid(st)
    requires ScanAll(st, s).Ok?
    ensures Concat(ScanAll(st, s).value.toks) == Concat(st.toks) + Unspaced(s, st.inString)
    decreases |s|
  {
    if |s| > 0 {
      var c := s[0];
      var next := Step(st, c).value;
      var kept := if !st.inString && c == ' ' then "" else [c];
      StepTracksString(st, c);
      StepKeepsText(st, c);
      ScanAllUnfold(st, s, next);
      ScanSpellsText(next, s[1..]);
      assert Unspaced(s, st.inString) == kept + Unspaced(s[1..], next.inString);
    }
  }

  /**
   * The corrected scan loses and reorders nothing: the tokens spell the text
   * read so far without its spaces outside string literals.
   */
  lemma ScanKeepsText(st: Scan, s: string)
    requires ScanInvariant(st)
    requires ScanAll(st, s).Ok?
    ensures ScanInvariant(ScanAll(st, s).value)
    ensures Concat(ScanAll(st, s).value.toks) == Concat(st.toks) + Unspaced(s, st.inString)
  {
    ScanAllKeepsEquals(st, s);
    ScanSpellsText(st, s);
  }

  /**
   * Every token of a scan that opens a string literal also closes it, so
   * `IsString` accepts it; the one exception is a literal still open when
   * the text ends, which stays the current token.
   */
  lemma ScannedLiteralsAreStrings(s: string)
    requires ScanAll(Start, s).Ok?
    ensures var st := ScanAll(Start, s).value;
      forall k :: 0 <= k < |st.toks| && |st.toks[k]| > 0 && st.toks[k][0] == '"' ==>
        IsString(st.toks[k]) == Ok(true) || (k == |st.toks| - 1 && st.inString)
  {
    ScanKeepsText(Start, s);
  }

  /** An unclosed quote at the end of the text is the token `"`, which `IsString` accepts. */
  lemma UnclosedQuoteIsString()
    ensures ScanAll(Start, QUOTE) == Ok(Scan([QUOTE], true))
    ensures IsString(QUOTE) == Ok(true)
  {
    QuoteOpensString([]);
    assert [] + [""] == Start.toks && [] + [QUOTE] == [QUOTE];
    ScanAllUnfold(Start, QUOTE, Scan([QUOTE], true));
    assert QUOTE[1..] == "";
  }

  /** One character of a scan: a successful step continues with the rest of the text. */
  lemma ScanAllUnfold(st: Scan, s: string, next: Scan)
    requires Valid(st) && |s| > 0 && Step(st, s[0]) == Ok(next)
    ensures ScanAll(st, s) == ScanAll(next, s[1..])
  {
  }

  /** Inside a string every character joins the current token; a quote also closes the string. */
  lemma StringStep(front: seq<string>, cur: string, c: char)
    ensures Step(Scan(front + [cur], true), c) ==
      if c == '"' then Ok(Scan(front + [cur + [c], ""], false)) else Ok(Scan(front + [cur + [c]], true))
  {
    assert (front + [cur])[..|front|] == front;
  }

  /** Outside a string, a quote opens a string token. */
  lemma QuoteOpensString(front: seq<string>)
    ensures Step(Scan(front + [""], false), '"') == Ok(Scan(front + [QUOTE], true))
  {
    assert IsSingleCharToken('"') && ['"'] == QUOTE;
    assert (front + [""])[..|front|] == front;
  }

  /** From an empty current token, the string literal `"body"` becomes one token, copied verbatim. */
  lemma StringLiteralIsOneToken(front: seq<string>, body: string)
    requires forall i :: 0 <= i < |body| ==> body[i] != '"'
    ensures ScanAll(Scan(front + [""], false), QUOTE + body + QUOTE) == Ok(Scan(front + [QUOTE + body + QUOTE, ""], false))
  {
    OpenQuoteThenBody(front, body);
    InsideString(front, QUOTE, body);
  }

  lemma OpenQuoteThenBody(front: seq<string>, body: string)
    ensures ScanAll(Scan(front + [""], false), QUOTE + body + QUOTE) == ScanAll(Scan(front + [QUOTE], true), body + QUOTE)
  {
    var text := QUOTE + body + QUOTE;
    QuoteOpensString(front);
    assert text[0] == '"';
    assert text[1..] == body + QUOTE;
    ScanAllUnfold(Scan(front + [""], false), text, Scan(front + [QUOTE], true));
  }

  lemma {:induction false} InsideString(front: seq<string>, cur: string, body: string)
    requires forall i :: 0 <= i < |body| ==> body[i] != '"'
    ensures ScanAll(Scan(front + [cur], true), body + QUOTE) == Ok(Scan(front + [cur + body + QUOTE, ""], false))
    decreases |body|
  {
    if |body| == 0 {
      StringStep(front, cur, '"');
      assert body + QUOTE == QUOTE && QUOTE[1..] == "";
      ScanAllUnfold(Scan(front + [cur], true), QUOTE, Scan(front + [cur + ['"'], ""], false));
      assert cur + body + QUOTE == cur + ['"'];
    } else {
      var st := Scan(front + [cur], true);
      var st' := Scan(front + [cur + [body[0]]], true);
      assert ScanAll(st, body + QUOTE) == ScanAll(st', body[1..] + QUOTE) by {
        StringStep(front, cur, body[0]);
        assert (body + QUOTE)[0] == body[0] && (body + QUOTE)[1..] == body[1..] + QUOTE;
        ScanAllUnfold(st, body + QUOTE, st');
      }
      assert ScanAll(st', body[1..] + QUOTE) == Ok(Scan(front + [cur + [body[0]] + body[1..] + QUOTE, ""], false)) by {
        InsideString(front, cur + [body[0]], body[1..]);
      }
      assert cur + [body[0]] + body[1..] == cur + body;
    }
  }

  /** A `.` that does not complete `...` is a token of its own. */
  lemma DotStartsToken(st: Scan)
    requires Valid(st) && !st.inString && Current(st) == "" && |st.toks| >= 2
    requires !(st.toks[|st.toks| - 2] == DOT && (|st.toks| < 3 || st.toks[|st.toks| - 3] == DOT))
    ensures Step(st, '.') == Ok(Scan(st.toks[..|st.toks| - 1] + [DOT, ""], false))
  {
    assert IsSingleCharToken('.') && ['.'] == DOT;
  }

  /** A `.` from an empty token after two `.` tokens completes `...`, in both steps. */
  lemma DotCompletesEllipsis(st: Scan)
    requires Valid(st) && !st.inString && |st.toks| >= 3 && Current(st) == ""
    requires st.toks[|st.toks| - 2] == DOT && st.toks[|st.toks| - 3] == DOT
    ensures Step(st, '.') == StepAsWritten(st, '.') == Ok(Scan(st.toks[..|st.toks| - 3] + [ELLIPSES, ""], false))
  {
    assert IsSingleCharToken('.');
  }

  /** Three dots after an ordinary token become the single token `...`. */
  lemma EllipsisIsOneToken(front: seq<string>, p: string)
    requires p != DOT
    ensures ScanAll(Scan(front + [p, ""], false), "...") == Ok(Scan(front + [p, ELLIPSES, ""], false))
  {
    var s0 := Scan(front + [p, ""], false);
    var s1 := Scan(front + [p, DOT, ""], false);
    var s2 := Scan(front + [p, DOT, DOT, ""], false);
    var s3 := Scan(front + [p, ELLIPSES, ""], false);
    DotStartsToken(s0);
    assert s0.toks[..|s0.toks| - 1] + [DOT, ""] == s1.toks;
    DotStartsToken(s1);
    assert s1.toks[..|s1.toks| - 1] + [DOT, ""] == s2.toks;
    DotCompletesEllipsis(s2);
    assert s2.toks[..|s2.toks| - 3] + [ELLIPSES, ""] == s3.toks;
    assert "..."[1..] == ".." && ".."[1..] == "." && "."[1..] == "";
  }

  /** An `=` after `<`, `>`, `=` or `!` joins it, in both steps. */
  lemma EqualJoinsComparison(front: seq<string>, p: string)
    requires ExtendsWithEqual(p)
    ensures var st := Scan(front + [p, ""], false);
      Step(st, '=') == StepAsWritten(st, '=') == Ok(Scan(front + [p + EQUAL, ""], false))
  {
    assert (front + [p, ""])[..|front|] == front;
  }

  // ---------------------------------------------------------------------------
  // SecondPass
  // ---------------------------------------------------------------------------

  /** The first newline token at or after `i`, or None. */
  function NextNewline(toks: seq<string>, i: nat): (r: Option<nat>)
    requires i <= |toks|
    ensures r.Some? ==> i <= r.value < |toks| && toks[r.value] == NEWLINE
    ensures r.Some? ==> forall k :: i <= k < r.value ==> toks[k] != NEWLINE
    ensures r.None? ==> forall k :: i <= k < |toks| ==> toks[k] != NEWLINE
    decreases |toks| - i
  {
    if i == |toks| then None
    else if toks[i] == NEWLINE then Some(i)
    else NextNewline(toks, i + 1)
  }

  /** The token an operator becomes: after another operator, `-` and `~` are unary. */
  function MarkUnary(t: string, seenOperator: bool): string {
    if !seenOperator then t
    else if t == MINUS then UNARY_NEG
    else if t == TILDE then UNARY_ABS
    else t
  }

  /**
   * `SecondPass` from index `i`. A comment runs from `#` to the next newline
   * token, which is kept; with no newline after it the scan reads past the
   * array and throws IndexOutOfRange. An operator other than `)` after an
   * operator is marked unary. A number, `.` and a number are folded into one
   * token when at least two tokens follow the first.
   */
  function SecondPassFrom(toks: seq<string>, i: nat, seenOperator: bool): (r: Result<seq<string>>)
    requires i <= |toks|
    ensures r.Ok? ==> |r.value| <= |toks| - i
    decreases |toks| - i
  {
    if i == |toks| then Ok([])
    else
      var t := toks[i];
      if t == HASH then
        match NextNewline(toks, i)
        case None => Throw(IndexOutOfRange)
        case Some(j) => var rest :- SecondPassFrom(toks, j + 1, seenOperator); Ok([toks[j]] + rest)
      else if IsOperator(t) && t != RPAR then
        var rest :- SecondPassFrom(toks, i + 1, true); Ok([MarkUnary(t, seenOperator)] + rest)
      else if i < |toks| - 2 && IsNumber(t) && toks[i + 1] == DOT && IsNumber(toks[i + 2]) then
        var rest :- SecondPassFrom(toks, i + 3, seenOperator); Ok([t + DOT + toks[i + 2]] + rest)
      else
        var rest :- SecondPassFrom(toks, i + 1, false); Ok([t] + rest)
  }

  function SecondPass(toks: seq<string>): Result<seq<string>> {
    SecondPassFrom(toks, 0, false)
  }

  /** `pre` put in front of a successful result; a thrown exception passes through. */
  function Prepend(pre: seq<string>, r: Result<seq<string>>): Result<seq<string>> {
    match r
    case Ok(v) => Ok(pre + v)
    case Throw(e) => Throw(e)
  }

  /** A comment is replaced by the newline that ends it, or throws when no newline follows. */
  lemma CommentSkipsToNewline(toks: seq<string>, i: nat, seen: bool)
    requires i < |toks| && toks[i] == HASH
    ensures NextNewline(toks, i).None? ==> SecondPassFrom(toks, i, seen) == Throw(IndexOutOfRange)
    ensures NextNewline(toks, i).Some? ==> var j := NextNewline(toks, i).value;
      SecondPassFrom(toks, i, seen) == Prepend([NEWLINE], SecondPassFrom(toks, j + 1, seen))
  {
  }

  /** A `-` right after an operator other than `)` becomes the unary `u-`. */
  lemma MinusAfterOperatorIsUnary(toks: seq<string>, i: nat, seen: bool)
    requires i + 1 < |toks| && IsOperator(toks[i]) && toks[i] != RPAR && toks[i] != HASH
    requires toks[i + 1] == MINUS
    ensures SecondPassFrom(toks, i, seen) == Prepend([MarkUnary(toks[i], seen), UNARY_NEG], SecondPassFrom(toks, i + 2, true))
  {
    assert IsOperator(MINUS);
    var rest := SecondPassFrom(toks, i + 2, true);
    if rest.Ok? {
      assert [MarkUnary(toks[i], seen)] + ([UNARY_NEG] + rest.value) == [MarkUnary(toks[i], seen), UNARY_NEG] + rest.value;
    }
  }

  /** A `-` right after an operand or `)` stays the binary `-`. */
  lemma MinusAfterOperandIsBinary(toks: seq<string>, i: nat, seen: bool)
    requires i + 1 < |toks| && toks[i] != HASH && (!IsOperator(toks[i]) || toks[i] == RPAR)
    requires !(i < |toks| - 2 && IsNumber(toks[i]) && toks[i + 1] == DOT && IsNumber(toks[i + 2]))
    requires toks[i + 1] == MINUS
    ensures SecondPassFrom(toks, i, seen) == Prepend([toks[i], MINUS], SecondPassFrom(toks, i + 2, true))
  {
    assert IsOperator(MINUS);
    var rest := SecondPassFrom(toks, i + 2, true);
    if rest.Ok? {
      assert [toks[i]] + ([MINUS] + rest.value) == [toks[i], MINUS] + rest.value;
    }
  }

  /** `123`, `.`, `567` become `123.567`. */
  lemma DecimalIsFolded(toks: seq<string>, i: nat, seen: bool)
    requires i + 2 < |toks| && IsNumber(toks[i]) && toks[i + 1] == DOT && IsNumber(toks[i + 2])
    ensures SecondPassFrom(toks, i, seen) == Prepend([toks[i] + DOT + toks[i + 2]], SecondPassFrom(toks, i + 3, seen))
  {
    ClassifiersSeparate(toks[i]);
  }

  /** A token with its unary mark taken off: `u-` reads as `-` and `u~` as `~`. */
  function Unmark(t: string): string {
    if t == UNARY_NEG then MINUS else if t == UNARY_ABS then TILDE else t
  }

  /** The text the tokens spell once their unary marks are taken off. */
  function PlainText(toks: seq<string>): string {
    if |toks| == 0 then "" else Unmark(toks[0]) + PlainText(toks[1..])
  }

  /**
   * The tokens from `i` with every comment, from `#` up to the newline that
   * ends it, replaced by that newline; a comment that runs to the end is
   * dropped.
   */
  function Uncommented(toks: seq<string>, i: nat): seq<string>
    requires i <= |toks|
    decreases |toks| - i
  {
    if i == |toks| then []
    else if toks[i] == HASH then
      match NextNewline(toks, i)
      case None => []
      case Some(j) => [toks[j]] + Uncommented(toks, j + 1)
    else [toks[i]] + Uncommented(toks, i + 1)
  }

  lemma PlainTextCons(t: string, rest: seq<string>)
    ensures PlainText([t] + rest) == Unmark(t) + PlainText(rest)
  {
    assert ([t] + rest)[0] == t && ([t] + rest)[1..] == rest;
  }

  /**
   * The second pass changes the text of the tokens only by removing
   * comments: marking `-` and `~` unary and folding `1`, `.`, `5` into
   * `1.5` leave the plain text as it was.
   */
  lemma {:induction false} SecondPassKeepsText(toks: seq<string>, i: nat, seen: bool)
    requires i <= |toks|
    requires SecondPassFrom(toks, i, seen).Ok?
    ensures PlainText(SecondPassFrom(toks, i, seen).value) == PlainText(Uncommented(toks, i))
    decreases |toks| - i
  {
    if i < |toks| {
      var t := toks[i];
      if t == HASH {
        var j := NextNewline(toks, i).value;
        CommentSkipsToNewline(toks, i, seen);
        SecondPassKeepsText(toks, j + 1, seen);
        CommentKeepsText(toks, i, j, SecondPassFrom(toks, j + 1, seen).value);
      } else if IsOperator(t) && t != RPAR {
        OperatorPasses(toks, i, seen);
        SecondPassKeepsText(toks, i + 1, true);
        OtherTokenKeepsText(toks, i, MarkUnary(t, seen), SecondPassFrom(toks, i + 1, true).value);
      } else if i < |toks| - 2 && IsNumber(t) && toks[i + 1] == DOT && IsNumber(toks[i + 2]) {
        DecimalIsFolded(toks, i, seen);
        SecondPassKeepsText(toks, i + 3, seen);
        DecimalKeepsText(toks, i, SecondPassFrom(toks, i + 3, seen).value);
      } else {
        OperandPasses(toks, i, seen);
        SecondPassKeepsText(toks, i + 1, false);
        OtherTokenKeepsText(toks, i, t, SecondPassFrom(toks, i + 1, false).value);
      }
    }
  }

  /** An operator other than `)` is kept, marked unary after another operator. */
  lemma OperatorPasses(toks: seq<string>, i: nat, seen: bool)
    requires i < |toks| && toks[i] != HASH && IsOperator(toks[i]) && toks[i] != RPAR
    ensures SecondPassFrom(toks, i, seen) == Prepend([MarkUnary(toks[i], seen)], SecondPassFrom(toks, i + 1, true))
  {
  }

  /** Any other token that starts no decimal is kept as it is. */
  lemma OperandPasses(toks: seq<string>, i: nat, seen: bool)
    requires i < |toks| && toks[i] != HASH && !(IsOperator(toks[i]) && toks[i] != RPAR)
    requires !(i < |toks| - 2 && IsNumber(toks[i]) && toks[i + 1] == DOT && IsNumber(toks[i + 2]))
    ensures SecondPassFrom(toks, i, seen) == Prepend([toks[i]], SecondPassFrom(toks, i + 1, false))
  {
  }

  lemma CommentKeepsText(toks: seq<string>, i: nat, j: nat, rest: seq<string>)
    requires i < |toks| && toks[i] == HASH && NextNewline(toks, i) == Some(j)
    requires PlainText(rest) == PlainText(Uncommented(toks, j + 1))
    ensures PlainText([toks[j]] + rest) == PlainText(Uncommented(toks, i))
  {
    assert Uncommented(toks, i) == [toks[j]] + Uncommented(toks, j + 1);
    PlainTextCons(toks[j], rest);
    PlainTextCons(toks[j], Uncommented(toks, j + 1));
  }

  lemma DecimalKeepsText(toks: seq<string>, i: nat, rest: seq<string>)
    requires i + 2 < |toks| && IsNumber(toks[i]) && toks[i + 1] == DOT && IsNumber(toks[i + 2])
    requires PlainText(rest) == PlainText(Uncommented(toks, i + 3))
    ensures PlainText([toks[i] + DOT + toks[i + 2]] + rest) == PlainText(Uncommented(toks, i))
  {
    var t := toks[i];
    NumberNotMarked(t);
    NumberNotMarked(toks[i + 2]);
    assert t != HASH && toks[i + 2] != HASH by { assert HASH[0] == '#'; }
    UncommentedStep(toks, i + 2);
    UncommentedStep(toks, i + 1);
    UncommentedStep(toks, i);
    FoldKeepsText(t, toks[i + 2], rest, Uncommented(toks, i + 3));
  }

  lemma UncommentedStep(toks: seq<string>, i: nat)
    requires i < |toks| && toks[i] != HASH
    ensures Uncommented(toks, i) == [toks[i]] + Uncommented(toks, i + 1)
  {
  }

  /** A token that is not a comment, emitted with the same plain text, keeps the text of what follows. */
  lemma OtherTokenKeepsText(toks: seq<string>, i: nat, emitted: string, rest: seq<string>)
    requires i < |toks| && toks[i] != HASH && Unmark(emitted) == Unmark(toks[i])
    requires PlainText(rest) == PlainText(Uncommented(toks, i + 1))
    ensures PlainText([emitted] + rest) == PlainText(Uncommented(toks, i))
  {
    assert Uncommented(toks, i) == [toks[i]] + Uncommented(toks, i + 1);
    PlainTextCons(emitted, rest);
    PlainTextCons(toks[i], Uncommented(toks, i + 1));
  }

  /** A number ends in a digit, so it is no unary marker. */
  lemma NumberNotMarked(t: string)
    requires IsNumber(t)
    ensures NotMarked(t)
  {
    var e := PatternEnd(t);
    assert IsDigit(t[e - 1]);
    assert UNARY_NEG[1] == '-' && UNARY_ABS[1] == '~';
  }

  /** Folding a decimal keeps its three tokens' text. */
  lemma FoldKeepsText(t: string, t2: string, out: seq<string>, ref: seq<string>)
    requires IsNumber(t) && IsNumber(t2) && PlainText(out) == PlainText(ref)
    ensures PlainText([t + DOT + t2] + out) == PlainText([t] + ([DOT] + ([t2] + ref)))
  {
    NumberNotMarked(t);
    NumberNotMarked(t2);
    assert |t + DOT + t2| >= 3;
    PlainTextCons(t + DOT + t2, out);
    PlainTextCons(t2, ref);
    PlainTextCons(DOT, [t2] + ref);
    PlainTextCons(t, [DOT] + ([t2] + ref));
  }

  /** Without a `#` token there is nothing to uncomment. */
  lemma {:induction false} NoCommentIsUncommented(toks: seq<string>, i: nat)
    requires i <= |toks|
    requires forall k :: 0 <= k < |toks| ==> toks[k] != HASH
    ensures Uncommented(toks, i) == toks[i..]
    decreases |toks| - i
  {
    if i < |toks| {
      NoCommentIsUncommented(toks, i + 1);
      assert toks[i..] == [toks[i]] + toks[i + 1..];
    }
  }

  /** Tokens that hold no unary marker spell the same plain text as their concatenation. */
  lemma {:induction false} UnmarkedPlainText(toks: seq<string>)
    requires forall k :: 0 <= k < |toks| ==> NotMarked(toks[k])
    ensures PlainText(toks) == Concat(toks)
    decreases |toks|
  {
    if |toks| > 0 {
      UnmarkedPlainText(toks[1..]);
    }
  }

  /** SecondPass emits no `#` and no empty token, since it keeps only non-empty tokens outside comments. */
  lemma {:induction false} SecondPassOutput(toks: seq<string>, i: nat, seen: bool)
    requires i <= |toks|
    requires forall k :: 0 <= k < |toks| ==> toks[k] != ""
    requires SecondPassFrom(toks, i, seen).Ok?
    ensures forall k :: 0 <= k < |SecondPassFrom(toks, i, seen).value| ==>
      SecondPassFrom(toks, i, seen).value[k] != HASH && SecondPassFrom(toks, i, seen).value[k] != ""
    decreases |toks| - i
  {
    if i < |toks| {
      var t := toks[i];
      if t == HASH {
        var j := NextNewline(toks, i).value;
        SecondPassOutput(toks, j + 1, seen);
      } else if IsOperator(t) && t != RPAR {
        SecondPassOutput(toks, i + 1, true);
      } else if i < |toks| - 2 && IsNumber(t) && toks[i + 1] == DOT && IsNumber(toks[i + 2]) {
        SecondPassOutput(toks, i + 3, seen);
      } else {
        SecondPassOutput(toks, i + 1, false);
      }
    }
  }

  // ---------------------------------------------------------------------------
  // Tokenize
  // ---------------------------------------------------------------------------

  /** `Tokenize` with the source's step. */
  function TokenizeAsWritten(input: string): (r: Result<seq<string>>)
    ensures r.Ok? ==> forall k :: 0 <= k < |r.value| ==> r.value[k] != "" && r.value[k] != HASH
  {
    var st :- ScanAllAsWritten(Start, CompressWhitespace(input));
    var toks := NonEmpty(st.toks);
    var r := SecondPass(toks);
    if r.Ok? then SecondPassOutput(toks, 0, false); r else r
  }

  /**
   * `Tokenize`: no token it returns is empty or a comment marker, and for a
   * text without `#` the tokens, with their unary marks taken off, spell the
   * text without its blanks outside string literals.
   */
  function Tokenize(input: string): (r: Result<seq<string>>)
    ensures r.Ok? ==> forall k :: 0 <= k < |r.value| ==> r.value[k] != "" && r.value[k] != HASH
    ensures r.Ok? && NoHashIn(input) ==> PlainText(r.value) == Unblanked(input, false)
  {
    var st :- ScanAll(Start, CompressWhitespace(input));
    var toks := NonEmpty(st.toks);
    var r := SecondPass(toks);
    if r.Ok? then
      SecondPassOutput(toks, 0, false);
      TokenizeKeepsText(input, st);
      r
    else r
  }

  /** No character of the text is `#`. */
  predicate NoHashIn(s: string) {
    forall i :: 0 <= i < |s| ==> s[i] != '#'
  }

  /**
   * The tokens `Tokenize` hands to its second pass spell the input without
   * its blanks outside string literals, and the second pass keeps that text
   * apart from comments; without `#` there are no comments to remove.
   */
  lemma TokenizeKeepsText(input: string, st: Scan)
    requires ScanAll(Start, CompressWhitespace(input)) == Ok(st)
    ensures Concat(NonEmpty(st.toks)) == Unblanked(input, false)
    ensures SecondPass(NonEmpty(st.toks)).Ok? ==>
      PlainText(SecondPass(NonEmpty(st.toks)).value) == PlainText(Uncommented(NonEmpty(st.toks), 0))
    ensures SecondPass(NonEmpty(st.toks)).Ok? && NoHashIn(input) ==>
      PlainText(SecondPass(NonEmpty(st.toks)).value) == Unblanked(input, false)
  {
    var toks := NonEmpty(st.toks);
    ScanKeepsText(Start, CompressWhitespace(input));
    assert Concat(Start.toks) == "";
    CompressThenUnspaced(input, false, false);
    NonEmptyKeepsText(st.toks);
    if SecondPass(toks).Ok? {
      SecondPassKeepsText(toks, 0, false);
      if NoHashIn(input) {
        UnblankedKeepsNoHash(input, false);
        NoHashToken(toks);
        NoCommentIsUncommented(toks, 0);
        assert toks[0..] == toks;
        assert forall k :: 0 <= k < |toks| ==> NotMarked(toks[k]) by {
          forall k | 0 <= k < |toks| ensures NotMarked(toks[k]) {
            assert toks[k] in st.toks;
          }
        }
        UnmarkedPlainText(toks);
      }
    }
  }

  lemma {:induction false} UnblankedKeepsNoHash(s: string, inString: bool)
    requires NoHashIn(s)
    ensures NoHashIn(Unblanked(s, inString))
    decreases |s|
  {
    if |s| > 0 {
      UnblankedKeepsNoHash(s[1..], if inString then s[0] != '"' else s[0] == '"');
    }
  }

  /** Tokens whose text has no `#` hold no `#` token. */
  lemma {:induction false} NoHashToken(toks: seq<string>)
    requires NoHashIn(Concat(toks))
    ensures forall k :: 0 <= k < |toks| ==> toks[k] != HASH
    decreases |toks|
  {
    if |toks| > 0 {
      assert Concat(toks) == toks[0] + Concat(toks[1..]);
      assert NoHashIn(Concat(toks[1..])) by {
        forall i | 0 <= i < |Concat(toks[1..])| ensures Concat(toks[1..])[i] != '#' {
          assert Concat(toks)[|toks[0]| + i] == Concat(toks[1..])[i];
        }
      }
      NoHashToken(toks[1..]);
      assert toks[0] != HASH by {
        if |toks[0]| == 1 {
          assert Concat(toks)[0] == toks[0][0];
        }
      }
      assert forall k :: 1 <= k < |toks| ==> toks[k] == toks[1..][k - 1];
    }
  }

  /** The split keeps every `=` of the input text, now that no `=` is discarded. */
  lemma ScanKeepsEveryEqual(input: string)
    requires ScanAll(Start, CompressWhitespace(input)).Ok?
    ensures EqualsHeld(ScanAll(Start, CompressWhitespace(input)).value.toks) == EqualCount(input)
  {
    ScanAllKeepsEquals(Start, CompressWhitespace(input));
    assert EqualsHeld(Start.toks) == 0 by {
      EqualsHeldSnoc([], "");
      assert Start.toks == [] + [""];
    }
    CompressKeepsEqualCount(input, false, false);
  }

  lemma {:induction false} CompressKeepsEqualCount(s: string, seen: bool, inString: bool)
    ensures EqualCount(Compress(s, seen, inString)) == EqualCount(s)
    decreases |s|
  {
    if |s| > 0 {
      var c := s[0];
      if inString {
        CompressKeepsEqualCount(s[1..], seen, c != '"');
        EqualCountAppend([c], Compress(s[1..], seen, c != '"'));
      } else if c == '\r' {
        CompressKeepsEqualCount(s[1..], seen, false);
      } else if c == ' ' || c == '\t' {
        CompressKeepsEqualCount(s[1..], true, false);
        EqualCountAppend(if seen then "" else " ", Compress(s[1..], true, false));
      } else {
        CompressKeepsEqualCount(s[1..], false, c == '"');
        EqualCountAppend([c], Compress(s[1..], false, c == '"'));
      }
    }
  }

  lemma ScanAllAsWrittenUnfold(st: Scan, s: string, next: Scan)
    requires Valid(st) && |s| > 0 && StepAsWritten(st, s[0]) == Ok(next)
    ensures ScanAllAsWritten(st, s) == ScanAllAsWritten(next, s[1..])
  {
  }

  /** An ordinary character joins the current token, in both steps. */
  lemma OrdinaryStep(st: Scan, c: char)
    requires Valid(st) && !st.inString && !IsSingleCharToken(c) && c != ' '
    ensures var n := |st.toks|;
      Step(st, c) == StepAsWritten(st, c) == Ok(Scan(st.toks[..n - 1] + [Current(st) + [c]], false))
  {
  }

  /** A space outside a string closes the current token. */
  lemma SpaceStep(st: Scan)
    requires Valid(st) && !st.inString
    ensures Step(st, ' ') == StepAsWritten(st, ' ') == Ok(Scan(st.toks + [""], false))
  {
  }

  /** An `=` that does not extend the token before it: kept by the corrected step. */
  lemma EqualStartsToken(st: Scan)
    requires Valid(st) && !st.inString && |st.toks| >= 2 && !ExtendsWithEqual(st.toks[|st.toks| - 2])
    ensures Step(st, '=') == Ok(StartToken(st, '='))
  {
  }

  /** The same `=` after a one-character token: discarded by the source's step. */
  lemma EqualDroppedAsWritten(st: Scan)
    requires Valid(st) && !st.inString && |st.toks| >= 2
    requires |st.toks[|st.toks| - 2]| == 1 && !ExtendsWithEqual(st.toks[|st.toks| - 2])
    ensures StepAsWritten(st, '=') == Ok(st)
  {
  }

  /**
   * The source's step pairs an `=` with the token before a non-empty current
   * token: in `a<b=1` it joins the `<`, and the tokens spell `a<=b1`.
   */
  lemma PairingAcrossTokenAsWritten()
    ensures ScanAllAsWritten(Start, "a<b=1") == Ok(Scan(["a", LTEQ, "b1"], false))
    ensures Concat(["a", LTEQ, "b1"]) != Unspaced("a<b=1", false)
  {
    ScanPairingAsWritten();
    PairedTextDiffers();
  }

  lemma ScanPairingAsWritten()
    ensures ScanAllAsWritten(Start, "a<b=1") == Ok(Scan(["a", LTEQ, "b1"], false))
  {
    var s0 := Scan([""], false);
    var s1 := Scan(["a"], false);
    var s2 := Scan(["a", LANGLE, ""], false);
    var s3 := Scan(["a", LANGLE, "b"], false);
    var s4 := Scan(["a", LTEQ, "b"], false);
    var s5 := Scan(["a", LTEQ, "b1"], false);
    assert StepAsWritten(s0, 'a') == Ok(s1) by {
      OrdinaryStep(s0, 'a');
      assert "" + ['a'] == "a";
      assert s0.toks[..0] + ["a"] == s1.toks;
    }
    assert StepAsWritten(s1, '<') == Ok(s2) by {
      assert IsSingleCharToken('<') && ['<'] == LANGLE;
      assert StartToken(s1, '<') == s2;
    }
    assert StepAsWritten(s2, 'b') == Ok(s3) by {
      OrdinaryStep(s2, 'b');
      assert "" + ['b'] == "b";
      assert s2.toks[..2] + ["b"] == s3.toks;
    }
    assert StepAsWritten(s3, '=') == Ok(s4) by {
      assert ExtendsWithEqual(LANGLE) && |LANGLE| == 1;
      assert LANGLE + ['='] == LTEQ;
      assert ExtendPrevious(s3, '=') == s4;
    }
    assert StepAsWritten(s4, '1') == Ok(s5) by {
      OrdinaryStep(s4, '1');
      assert "b" + ['1'] == "b1";
      assert s4.toks[..2] + ["b1"] == s5.toks;
    }
    ScanAllAsWrittenUnfold(s4, "1", s5);
    ScanAllAsWrittenUnfold(s3, "=1", s4);
    ScanAllAsWrittenUnfold(s2, "b=1", s3);
    ScanAllAsWrittenUnfold(s1, "<b=1", s2);
    ScanAllAsWrittenUnfold(s0, "a<b=1", s1);
  }

  /** `a<=b1` is not `a<b=1`. */
  lemma PairedTextDiffers()
    ensures Concat(["a", LTEQ, "b1"]) != Unspaced("a<b=1", false)
  {
    ConcatSnoc2(["a"], LTEQ, "b1");
    assert Concat(["a"]) == "a" by { ConcatSnoc([], "a"); assert [] + ["a"] == ["a"]; }
    assert Concat(["a", LTEQ, "b1"])[2] == '=';
    var u := Unspaced("a<b=1", false);
    assert "a<b=1"[1..] == "<b=1" && "<b=1"[1..] == "b=1";
    assert u == "a" + Unspaced("<b=1", false);
    assert Unspaced("<b=1", false) == "<" + Unspaced("b=1", false);
    assert Unspaced("b=1", false)[0] == 'b';
    assert u[2] == 'b';
  }

  /** The corrected step leaves `a<b=1` in order: `a`, `<`, `b`, `=`, `1`. */
  lemma PairingFromEmptyToken()
    ensures ScanAll(Start, "a<b=1") == Ok(Scan(["a", LANGLE, "b", EQUAL, "1"], false))
  {
    var s0 := Scan([""], false);
    var s1 := Scan(["a"], false);
    var s2 := Scan(["a", LANGLE, ""], false);
    var s3 := Scan(["a", LANGLE, "b"], false);
    var s4 := Scan(["a", LANGLE, "b", EQUAL, ""], false);
    var s5 := Scan(["a", LANGLE, "b", EQUAL, "1"], false);
    assert Step(s0, 'a') == Ok(s1) by {
      OrdinaryStep(s0, 'a');
      assert "" + ['a'] == "a";
      assert s0.toks[..0] + ["a"] == s1.toks;
    }
    assert Step(s1, '<') == Ok(s2) by {
      assert IsSingleCharToken('<') && ['<'] == LANGLE;
      assert StartToken(s1, '<') == s2;
    }
    assert Step(s2, 'b') == Ok(s3) by {
      OrdinaryStep(s2, 'b');
      assert "" + ['b'] == "b";
      assert s2.toks[..2] + ["b"] == s3.toks;
    }
    assert Step(s3, '=') == Ok(s4) by {
      assert Current(s3) == "b" && ['='] == EQUAL;
      assert StartToken(s3, '=') == s4;
    }
    assert Step(s4, '1') == Ok(s5) by {
      OrdinaryStep(s4, '1');
      assert "" + ['1'] == "1";
      assert s4.toks[..4] + ["1"] == s5.toks;
    }
    ScanAllUnfold(s4, "1", s5);
    ScanAllUnfold(s3, "=1", s4);
    ScanAllUnfold(s2, "b=1", s3);
    ScanAllUnfold(s1, "<b=1", s2);
    ScanAllUnfold(s0, "a<b=1", s1);
  }

  /** `i == 2` is already compressed. */
  lemma CompressEquality()
    ensures CompressWhitespace("i == 2") == "i == 2"
  {
    assert Compress("2", true, false) == "2";
    assert Compress(" 2", false, false) == " 2";
    assert Compress("= 2", false, false) == "= 2";
    assert Compress("== 2", false, false) == "== 2";
  }

  /** The source's scan of `i == 2`: the `=` characters leave no token behind. */
  lemma ScanEqualityAsWritten()
    ensures ScanAllAsWritten(Start, "i == 2") == Ok(Scan(["i", "", "2"], false))
  {
    var s0 := Scan([""], false);
    var s1 := Scan(["i"], false);
    var s2 := Scan(["i", ""], false);
    var s3 := Scan(["i", "", ""], false);
    var s4 := Scan(["i", "", "2"], false);
    assert StepAsWritten(s0, 'i') == Ok(s1) by {
      OrdinaryStep(s0, 'i');
      assert "" + ['i'] == "i";
      assert s0.toks[..0] + ["i"] == s1.toks;
    }
    assert StepAsWritten(s1, ' ') == Ok(s2) by {
      SpaceStep(s1);
      assert s1.toks + [""] == s2.toks;
    }
    assert StepAsWritten(s2, '=') == Ok(s2) by {
      assert "i" != EQUAL && "i" != LANGLE && "i" != RANGLE && "i" != BANG by {
        assert "i"[0] == 'i';
      }
      EqualDroppedAsWritten(s2);
    }
    assert StepAsWritten(s2, ' ') == Ok(s3) by {
      SpaceStep(s2);
      assert s2.toks + [""] == s3.toks;
    }
    assert StepAsWritten(s3, '2') == Ok(s4) by {
      OrdinaryStep(s3, '2');
      assert "" + ['2'] == "2";
      assert s3.toks[..2] + ["2"] == s4.toks;
    }
    ScanAllAsWrittenUnfold(s3, "2", s4);
    ScanAllAsWrittenUnfold(s2, " 2", s3);
    ScanAllAsWrittenUnfold(s2, "= 2", s2);
    ScanAllAsWrittenUnfold(s2, "== 2", s2);
    ScanAllAsWrittenUnfold(s1, " == 2", s2);
    ScanAllAsWrittenUnfold(s0, "i == 2", s1);
  }

  /** `i == 2` as written: both `=` follow the one-character token `i` and are discarded. */
  lemma EqualityDroppedAsWritten()
    ensures TokenizeAsWritten("i == 2") == Ok(["i", "2"])
  {
    CompressEquality();
    ScanEqualityAsWritten();
    assert NonEmpty(["i", "", "2"]) == ["i", "2"];
    PlainTokens(["i", "2"]);
  }

  /** The corrected scan of `i == 2`: the two `=` join into one token. */
  lemma ScanEquality()
    ensures ScanAll(Start, "i == 2") == Ok(Scan(["i", DBLEQUAL, "", "2"], false))
  {
    var s0 := Scan([""], false);
    var s1 := Scan(["i"], false);
    var s2 := Scan(["i", ""], false);
    assert Step(s0, 'i') == Ok(s1) by {
      OrdinaryStep(s0, 'i');
      assert "" + ['i'] == "i";
      assert s0.toks[..0] + ["i"] == s1.toks;
    }
    assert Step(s1, ' ') == Ok(s2) by {
      SpaceStep(s1);
      assert s1.toks + [""] == s2.toks;
    }
    ScanComparisonFrom();
    ScanAllUnfold(s1, " == 2", s2);
    ScanAllUnfold(s0, "i == 2", s1);
  }

  /** The rest of `i == 2` once `i` and the space are read. */
  lemma ScanComparisonFrom()
    ensures ScanAll(Scan(["i", ""], false), "== 2") == Ok(Scan(["i", DBLEQUAL, "", "2"], false))
  {
    var s2 := Scan(["i", ""], false);
    var s3 := Scan(["i", EQUAL, ""], false);
    var s4 := Scan(["i", DBLEQUAL, ""], false);
    var s5 := Scan(["i", DBLEQUAL, "", ""], false);
    var s6 := Scan(["i", DBLEQUAL, "", "2"], false);
    assert Step(s2, '=') == Ok(s3) by {
      assert "i" != EQUAL && "i" != LANGLE && "i" != RANGLE && "i" != BANG by {
        assert "i"[0] == 'i';
      }
      EqualStartsToken(s2);
      assert ['='] == EQUAL;
      assert StartToken(s2, '=') == s3;
    }
    assert Step(s3, '=') == Ok(s4) by {
      EqualJoinsComparison(["i"], EQUAL);
      assert EQUAL + EQUAL == DBLEQUAL;
      assert ["i"] + [EQUAL, ""] == s3.toks;
      assert ["i"] + [EQUAL + EQUAL, ""] == s4.toks;
    }
    assert Step(s4, ' ') == Ok(s5) by {
      SpaceStep(s4);
      assert s4.toks + [""] == s5.toks;
    }
    assert Step(s5, '2') == Ok(s6) by {
      OrdinaryStep(s5, '2');
      assert "" + ['2'] == "2";
      assert s5.toks[..3] + ["2"] == s6.toks;
    }
    ScanAllUnfold(s5, "2", s6);
    ScanAllUnfold(s4, " 2", s5);
    ScanAllUnfold(s3, "= 2", s4);
    ScanAllUnfold(s2, "== 2", s3);
  }

  /** The second pass keeps `i`, `==` and `2` as they are. */
  lemma ComparisonTokens(toks: seq<string>)
    requires toks == ["i", DBLEQUAL, "2"]
    ensures SecondPass(toks) == Ok(toks)
  {
    assert "2"[0] == '2' && !IsOperator("2") && "2" != HASH;
    assert "i"[0] == 'i' && !IsOperator("i") && "i" != HASH;
    assert IsOperator(DBLEQUAL) && DBLEQUAL != RPAR && DBLEQUAL != HASH;
    assert !IsNumber("i") by {
      assert PatternEnd("i") == 1;
    }
    assert SecondPassFrom(toks, 3, true) == Ok([]);
    assert SecondPassFrom(toks, 2, true) == Ok([toks[2]] + SecondPassFrom(toks, 3, false).value);
    assert [toks[2]] + [] == ["2"];
    assert MarkUnary(DBLEQUAL, false) == DBLEQUAL;
    assert SecondPassFrom(toks, 1, false) == Ok([toks[1]] + SecondPassFrom(toks, 2, true).value);
    assert [toks[1]] + ["2"] == [DBLEQUAL, "2"];
    assert SecondPassFrom(toks, 0, false) == Ok([toks[0]] + SecondPassFrom(toks, 1, false).value);
    assert [toks[0]] + [DBLEQUAL, "2"] == toks;
  }

  /** `i == 2` with the corrected step. */
  lemma EqualityKept()
    ensures Tokenize("i == 2") == Ok(["i", DBLEQUAL, "2"])
  {
    CompressEquality();
    ScanEquality();
    assert "2" != "" && DBLEQUAL != "" && "i" != "";
    var toks := ["i", DBLEQUAL, "", "2"];
    assert NonEmpty(toks[3..]) == ["2"];
    assert NonEmpty(toks[2..]) == ["2"];
    assert NonEmpty(toks[1..]) == [DBLEQUAL, "2"];
    assert NonEmpty(toks) == ["i", DBLEQUAL, "2"];
    ComparisonTokens(["i", DBLEQUAL, "2"]);
  }

  /** Two operands with nothing to fold or mark pass through unchanged. */
  lemma PlainTokens(toks: seq<string>)
    requires toks == ["i", "2"]
    ensures SecondPass(toks) == Ok(toks)
  {
    assert "2"[0] == '2' && !IsOperator("2") && "2" != HASH;
    assert "i"[0] == 'i' && !IsOperator("i") && "i" != HASH;
    assert SecondPassFrom(toks, 2, false) == Ok([]);
    assert SecondPassFrom(toks, 1, false) == Ok([toks[1]] + SecondPassFrom(toks, 2, false).value);
    assert [toks[1]] + [] == ["2"];
    assert SecondPassFrom(toks, 0, false) == Ok([toks[0]] + SecondPassFrom(toks, 1, false).value);
    assert [toks[0]] + ["2"] == toks;
  }
}
