/** The token table of the hanoi language and its anchored prefix matchers.

    Each rule of the table recognises a prefix of the remaining input. The
    regular expressions of the table are replaced by explicit matchers whose
    contracts state the language of the expression and that the match is the
    longest accepted prefix (every pattern is greedy and has a single match
    shape, so the backtracking engine returns the longest one). */
module Lexer {

  datatype Option<T> = None | Some(value: T)

  /** The rules of the table, in priority order. */
  datatype Rule =
    | Literal | Hanoi | Swap | Pop | Print | Add | Label | Jump
    | Dup | Out | StringLiteral | Comment | Whitespace

  /** The table itself: a rule's position is its opcode. */
  const Rules: seq<Rule> :=
    [Literal, Hanoi, Swap, Pop, Print, Add, Label, Jump, Dup, Out, StringLiteral, Comment, Whitespace]

  /** The position of a rule in the table. */
  function Opcode(r: Rule): (k: nat)
    ensures k < |Rules| && Rules[k] == r
  {
    match r
    case Literal => 0
    case Hanoi => 1
    case Swap => 2
    case Pop => 3
    case Print => 4
    case Add => 5
    case Label => 6
    case Jump => 7
    case Dup => 8
    case Out => 9
    case StringLiteral => 10
    case Comment => 11
    case Whitespace => 12
  }

  lemma {:induction false} RulesAreDistinct(i: nat, j: nat)
    requires i < |Rules| && j < |Rules| && Rules[i] == Rules[j]
    ensures i == j
  {
    assert Opcode(Rules[i]) == i && Opcode(Rules[j]) == j;
  }

  /** `[0-9]`. */
  predicate IsDigit(c: char) {
    '0' <= c <= '9'
  }

  /** The characters the regular-expression dot does not match. */
  predicate IsLineTerminator(c: char) {
    c == '\n' || c == '\r' || c == '\U{2028}' || c == '\U{2029}'
  }

  /** The characters of the `\s` class of ECMAScript regular expressions. */
  predicate IsSpace(c: char) {
    || c == '\t' || c == '\n' || c == '\U{000B}' || c == '\U{000C}' || c == '\r' || c == ' '
    || c == '\U{00A0}' || c == '\U{1680}' || ('\U{2000}' <= c <= '\U{200A}')
    || c == '\U{2028}' || c == '\U{2029}' || c == '\U{202F}' || c == '\U{205F}'
    || c == '\U{3000}' || c == '\U{FEFF}'
  }

  /** The character classes the matchers repeat greedily. */
  datatype CharClass = Digit | Space | Dot

  predicate InClass(cl: CharClass, c: char) {
    match cl
    case Digit => IsDigit(c)
    case Space => IsSpace(c)
    case Dot => !IsLineTerminator(c)
  }

  /** Length of the longest prefix of `s` made of characters of class `cl`. */
  function Span(cl: CharClass, s: string): (n: nat)
    ensures n <= |s|
    ensures forall i :: 0 <= i < n ==> InClass(cl, s[i])
    ensures n == |s| || !InClass(cl, s[n])
  {
    if s == [] || !InClass(cl, s[0]) then 0 else 1 + Span(cl, s[1..])
  }

  /** The largest index `k` in `[lo, hi)` with `s[k] == c`, if any. */
  function LastIndex(s: string, c: char, lo: nat, hi: nat): (k: Option<nat>)
    requires hi <= |s|
    ensures k.Some? ==> lo <= k.value < hi && s[k.value] == c
    ensures k.Some? ==> forall j :: k.value < j < hi ==> s[j] != c
    ensures k.None? ==> forall j :: lo <= j < hi ==> s[j] != c
    decreases hi
  {
    if hi <= lo then None
    else if s[hi - 1] == c then Some(hi - 1)
    else LastIndex(s, c, lo, hi - 1)
  }

  /** `s` starts with the single character `c`. */
  predicate StartsWith(s: string, c: char) {
    |s| > 0 && s[0] == c
  }

  /** No line terminator among `s[lo..hi]`. */
  ghost predicate OnOneLine(s: string, lo: nat, hi: nat)
    requires hi <= |s|
  {
    forall i :: lo <= i < hi ==> !IsLineTerminator(s[i])
  }

  /** The opening and closing delimiter of the rules written `^O.*C`. */
  function Delimiters(r: Rule): (oc: (char, char))
    requires r == Label || r == Jump || r == StringLiteral
  {
    match r
    case Label => ('[', ']')
    case Jump => ('(', ')')
    case StringLiteral => ('\'', '\'')
  }

  /** The single character matched by the one-character rules. */
  function Symbol(r: Rule): char
    requires r in {Hanoi, Swap, Pop, Print, Add, Dup, Out}
  {
    match r
    case Hanoi => '_'
    case Swap => '$'
    case Pop => '^'
    case Print => '>'
    case Add => '+'
    case Dup => '"'
    case Out => '.'
  }

  /** The regular expression of rule `r` matches the prefix `s[..n]` of `s`
      (the language of each expression, written out). */
  ghost predicate Accepts(r: Rule, s: string, n: nat) {
    n <= |s| &&
    match r
    case Literal =>
      // ^[0-9]+
      n >= 1 && forall i :: 0 <= i < n ==> IsDigit(s[i])
    case Label | Jump | StringLiteral =>
      // ^\[.*\]   ^\(.*\)   ^'.*'
      Delimited(s, Delimiters(r).0, Delimiters(r).1, n)
    case Comment =>
      // ^;.*(?:$|\n)   ($ without the multiline flag: the end of the input)
      n >= 1 && s[0] == ';' &&
      ((n == |s| && OnOneLine(s, 1, n)) || (n >= 2 && s[n - 1] == '\n' && OnOneLine(s, 1, n - 1)))
    case Whitespace =>
      // ^\s+
      n >= 1 && forall i :: 0 <= i < n ==> IsSpace(s[i])
    case _ =>
      n == 1 && s[0] == Symbol(r)
  }

  /** The end of the line that starts at position 1 of `s`: the first line
      terminator after the first character, or the end of the input. */
  function LineEnd(s: string): (e: nat)
    requires |s| > 0
    ensures 1 <= e <= |s| && OnOneLine(s, 1, e)
    ensures e < |s| ==> IsLineTerminator(s[e])
    ensures forall m: nat :: m <= |s| && OnOneLine(s, 1, m) ==> m <= e
  {
    var e := 1 + Span(Dot, s[1..]);
    assert forall i :: 1 <= i < |s| ==> s[i] == s[1..][i - 1];
    forall m: nat | e < m <= |s| ensures !OnOneLine(s, 1, m) {
      assert IsLineTerminator(s[e]);
    }
    e
  }

  /** `s[..n]` is an opening delimiter, a run of the same line, and a
      closing delimiter. */
  ghost predicate Delimited(s: string, open: char, close: char, n: nat) {
    2 <= n <= |s| && s[0] == open && s[n - 1] == close && OnOneLine(s, 1, n - 1)
  }

  /** `^O.*C` with greedy `.*`: from an opening delimiter to the last
      closing delimiter on the same line. */
  function MatchDelimited(s: string, open: char, close: char): (m: Option<nat>)
    ensures m.Some? ==> 2 <= m.value <= |s|
  {
    if !StartsWith(s, open) then None
    else
      match LastIndex(s, close, 1, LineEnd(s))
      case None => None
      case Some(k) => Some(k + 1)
  }

  lemma DelimitedIsLongest(s: string, open: char, close: char)
    requires !IsLineTerminator(close)
    ensures MatchDelimited(s, open, close).Some? ==> Delimited(s, open, close, MatchDelimited(s, open, close).value)
    ensures forall n: nat :: Delimited(s, open, close, n) ==>
              MatchDelimited(s, open, close).Some? && n <= MatchDelimited(s, open, close).value
  {
    if StartsWith(s, open) {
      var e := LineEnd(s);
      forall n: nat | Delimited(s, open, close, n) ensures n <= e {
        assert OnOneLine(s, 1, n);
      }
    }
  }

  /** `^;.*(?:$|\n)`: a comment running to the end of the input or through
      the next newline; a line ended by another terminator does not match. */
  function MatchComment(s: string): (m: Option<nat>)
    ensures m.Some? ==> 0 < m.value <= |s|
  {
    if !StartsWith(s, ';') then None
    else
      var e := LineEnd(s);
      if e == |s| then Some(e)
      else if s[e] == '\n' then Some(e + 1)
      else None
  }

  lemma CommentIsLongest(s: string)
    ensures MatchComment(s).Some? ==> Accepts(Comment, s, MatchComment(s).value)
    ensures forall n: nat :: Accepts(Comment, s, n) ==> MatchComment(s).Some? && n <= MatchComment(s).value
  {
  }

  /** The anchored matcher of rule `r` on the remaining input `s`: the length
      of the longest accepted prefix, or None when the rule does not match. */
  function Match(r: Rule, s: string): (m: Option<nat>)
    ensures m.Some? ==> 0 < m.value <= |s|
  {
    match r
    case Literal =>
      var n := Span(Digit, s);
      if n == 0 then None else Some(n)
    case Whitespace =>
      var n := Span(Space, s);
      if n == 0 then None else Some(n)
    case Label | Jump | StringLiteral =>
      MatchDelimited(s, Delimiters(r).0, Delimiters(r).1)
    case Comment =>
      MatchComment(s)
    case _ =>
      if StartsWith(s, Symbol(r)) then Some(1) else None
  }

  /** Each matcher implements its regular expression: it returns the
      longest prefix the expression accepts, and None when it accepts none. */
  lemma MatchIsLongestAccepted(r: Rule, s: string)
    ensures Match(r, s).Some? ==> Accepts(r, s, Match(r, s).value)
    ensures Match(r, s).Some? ==> forall n: nat :: Accepts(r, s, n) ==> n <= Match(r, s).value
    ensures Match(r, s).None? ==> forall n: nat :: !Accepts(r, s, n)
  {
    match r
    case Label | Jump | StringLiteral =>
      DelimitedIsLongest(s, Delimiters(r).0, Delimiters(r).1);
    case Comment =>
      CommentIsLongest(s);
    case _ =>
  }

  /** The scan of the table from position `i` on: the first rule whose
      matcher accepts `s`, with the length of its match. */
  function FirstMatchFrom(s: string, i: nat): (t: Option<(Rule, nat)>)
    requires i <= |Rules|
    decreases |Rules| - i
  {
    if i == |Rules| then None
    else match Match(Rules[i], s)
      case Some(n) => Some((Rules[i], n))
      case None => FirstMatchFrom(s, i + 1)
  }

  /** The scan returns a rule at or after `i` together with its match. */
  lemma {:induction false} FirstMatchFromMatches(s: string, i: nat)
    requires i <= |Rules|
    ensures var t := FirstMatchFrom(s, i);
            t.Some? ==> i <= Opcode(t.value.0) && Match(t.value.0, s) == Some(t.value.1)
    decreases |Rules| - i
  {
    if i < |Rules| && Match(Rules[i], s).None? {
      FirstMatchFromMatches(s, i + 1);
    }
  }

  /** No rule the scan passed over matches. */
  lemma {:induction false} FirstMatchFromSkipsOnlyFailures(s: string, i: nat)
    requires i <= |Rules|
    ensures var t := FirstMatchFrom(s, i);
            forall j :: i <= j < (if t.Some? then Opcode(t.value.0) else |Rules|) ==> Match(Rules[j], s).None?
    decreases |Rules| - i
  {
    if i < |Rules| && Match(Rules[i], s).None? {
      FirstMatchFromSkipsOnlyFailures(s, i + 1);
    } else if i < |Rules| {
      assert Opcode(Rules[i]) == i;
    }
  }

  /** The rule that wins on input `s`: the first of the table that matches. */
  function FirstMatch(s: string): (t: Option<(Rule, nat)>)
    ensures t.Some? ==> Match(t.value.0, s) == Some(t.value.1)
    ensures t.Some? ==> forall j :: 0 <= j < Opcode(t.value.0) ==> Match(Rules[j], s).None?
    ensures t.None? ==> forall j :: 0 <= j < |Rules| ==> Match(Rules[j], s).None?
  {
    FirstMatchFromMatches(s, 0);
    FirstMatchFromSkipsOnlyFailures(s, 0);
    FirstMatchFrom(s, 0)
  }

  /** The first characters of the rules are pairwise distinct, so at most one
      rule of the table ever matches; the priority order never decides. */
  lemma {:induction false} AtMostOneRuleMatches(s: string, r1: Rule, r2: Rule)
    requires Match(r1, s).Some? && Match(r2, s).Some?
    ensures r1 == r2
  {
    assert Accepts(r1, s, Match(r1, s).value) && Accepts(r2, s, Match(r2, s).value);
  }

  lemma OtherRulesFail(s: string, r: Rule, j: nat)
    requires Match(r, s).Some? && j < |Rules| && Rules[j] != r
    ensures Match(Rules[j], s).None?
  {
    MatchIsLongestAccepted(r, s);
    MatchIsLongestAccepted(Rules[j], s);
  }

  /** Whatever rule matches is the one the table order selects. */
  lemma MatchingRuleWins(s: string, r: Rule)
    requires Match(r, s).Some?
    ensures FirstMatch(s) == Some((r, Match(r, s).value))
  {
    forall j | 0 <= j < |Rules| && Rules[j] != r ensures Match(Rules[j], s).None? {
      OtherRulesFail(s, r, j);
    }
    var i := Opcode(r);
    forall j | 0 <= j < i ensures Rules[j] != r {
      assert Opcode(Rules[j]) == j;
    }
    var t := FirstMatch(s);
    assert t.Some?;
    assert Opcode(t.value.0) == i;
  }

  /** One token: the winning rule and the text it matched. */
  datatype Token = Token(rule: Rule, text: string)

  /** The concatenated texts of a token sequence. */
  function Texts(ts: seq<Token>): string {
    if ts == [] then [] else ts[0].text + Texts(ts[1..])
  }

  /** The token the compiler consumes next from the remaining input `s`:
      the first matching rule of the table and the text it matched. */
  function NextToken(s: string): (t: Option<Token>)
    ensures t.Some? ==> 0 < |t.value.text| <= |s| && t.value.text == s[..|t.value.text|]
    ensures t.Some? ==> FirstMatch(s) == Some((t.value.rule, |t.value.text|))
    ensures t.None? ==> FirstMatch(s).None?
  {
    var m := FirstMatch(s);
    if m.None? then None else Some(Token(m.value.0, s[..m.value.1]))
  }

  /** Each token of `ts` is the next token at its own position of the input
      `Texts(ts) + rest`. */
  predicate Tokenizes(ts: seq<Token>, rest: string) {
    ts == [] || (NextToken(Texts(ts) + rest) == Some(ts[0]) && Tokenizes(ts[1..], rest))
  }

  lemma TextsCons(t: Token, ts: seq<Token>)
    ensures Texts([t] + ts) == t.text + Texts(ts)
  {
    assert ([t] + ts)[1..] == ts;
  }

  /** Repeated first match from the start of `s`: the tokens, and the
      remaining input. */
  function Lex(s: string): (seq<Token>, string)
    decreases |s|
  {
    if s == [] then ([], [])
    else
      var m := NextToken(s);
      if m.None? then ([], s)
      else
        var lx := Lex(s[|m.value.text|..]);
        ([m.value] + lx.0, lx.1)
  }

  /** Lex consumes the whole input: the texts of its tokens followed by the
      remaining input give back `s`. */
  lemma {:induction false} LexConsumes(s: string)
    ensures Texts(Lex(s).0) + Lex(s).1 == s
    decreases |s|
  {
    if s != [] && NextToken(s).Some? {
      var t := NextToken(s).value;
      var rest := s[|t.text|..];
      LexConsumes(rest);
      TextsCons(t, Lex(rest).0);
    }
  }

  /** Lex stops only at the end of the input or at a prefix that no rule
      of the table matches. */
  lemma {:induction false} LexStops(s: string)
    ensures Lex(s).1 == [] || NextToken(Lex(s).1).None?
    decreases |s|
  {
    if s != [] && NextToken(s).Some? {
      LexStops(s[|NextToken(s).value.text|..]);
    }
  }

  /** Every token Lex produces is the first match of the table at its own
      position of the input. */
  lemma {:induction false} LexTokenizes(s: string)
    ensures Tokenizes(Lex(s).0, Lex(s).1)
    decreases |s|
  {
    if s != [] && NextToken(s).Some? {
      var t := NextToken(s).value;
      var rest := s[|t.text|..];
      LexTokenizes(rest);
      LexConsumes(s);
      assert ([t] + Lex(rest).0)[1..] == Lex(rest).0;
    }
  }
}
