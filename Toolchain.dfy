/** The compiler and the machine together: what compiled code does when it
    runs. */
module Toolchain {
  import opened Lexer
  import opened Seqs
  import opened Compiler
  import opened Vm

  /** A step that succeeds does not change where `run` ends. */
  lemma ExecStep(inst: seq<int>, s: State)
    requires Valid(s) && s.pc < |inst| && Step(inst, s).Some?
    ensures Exec(inst, s) == Exec(inst, Step(inst, s).value)
  {
  }

  /** One LITERAL instruction pushes its operand and skips over it. */
  lemma ExecLiteral(inst: seq<int>, s: State, v: int)
    requires Valid(s) && s.pc + 2 <= |inst|
    requires inst[s.pc] == Opcode(Literal) && inst[s.pc + 1] == v
    ensures Exec(inst, s) == Exec(inst, SetCurrent(s, s.towers[s.cur] + [v]).(pc := s.pc + 2))
  {
    LiteralStep(inst, s);
    ExecStep(inst, s);
  }

  /** Pushing the head of `vs` and then its tail is pushing `vs`. */
  lemma PushThenPush(s: State, vs: seq<int>)
    requires Valid(s) && |vs| > 0
    ensures var t := SetCurrent(s, s.towers[s.cur] + [vs[0]]).(pc := s.pc + 2);
      SetCurrent(t, t.towers[t.cur] + vs[1..]).(pc := t.pc + 2 * |vs[1..]|) ==
      SetCurrent(s, s.towers[s.cur] + vs).(pc := s.pc + 2 * |vs|)
  {
    var t := SetCurrent(s, s.towers[s.cur] + [vs[0]]).(pc := s.pc + 2);
    var c := s.towers[s.cur] + vs;
    assert [vs[0]] + vs[1..] == vs;
    assert t.towers[t.cur] + vs[1..] == c;
    assert t.towers[t.cur := c] == s.towers[s.cur := c];
  }

  /** The code of `Pushes(vs)` at `pc` starts with a LITERAL of the head
      of `vs`, followed by the code of `Pushes` of its tail. */
  lemma PushesHead(inst: seq<int>, pc: nat, vs: seq<int>)
    requires |vs| > 0 && pc + 2 * |vs| <= |inst|
    requires inst[pc..pc + 2 * |vs|] == Pushes(vs)
    ensures inst[pc] == Opcode(Literal) && inst[pc + 1] == vs[0]
    ensures inst[pc + 2..pc + 2 + 2 * |vs[1..]|] == Pushes(vs[1..])
  {
    var code := inst[pc..pc + 2 * |vs|];
    assert code == [Opcode(Literal), vs[0]] + Pushes(vs[1..]);
    assert inst[pc] == code[0] && inst[pc + 1] == code[1];
    assert inst[pc + 2..pc + 2 + 2 * |vs[1..]|] == code[2..];
  }

  /** The code of `Pushes(vs)` at `pc` pushes `vs` in order onto the current
      tower and continues after it. */
  lemma {:induction false} ExecPushes(inst: seq<int>, s: State, vs: seq<int>)
    requires Valid(s) && s.pc + 2 * |vs| <= |inst|
    requires inst[s.pc..s.pc + 2 * |vs|] == Pushes(vs)
    ensures Exec(inst, s) == Exec(inst, SetCurrent(s, s.towers[s.cur] + vs).(pc := s.pc + 2 * |vs|))
    decreases |vs|
  {
    if |vs| == 0 {
      assert s.towers[s.cur] + vs == s.towers[s.cur];
      assert s.towers[s.cur := s.towers[s.cur]] == s.towers;
      assert SetCurrent(s, s.towers[s.cur] + vs).(pc := s.pc + 2 * |vs|) == s;
    } else {
      PushesHead(inst, s.pc, vs);
      ExecLiteral(inst, s, vs[0]);
      var t := SetCurrent(s, s.towers[s.cur] + [vs[0]]).(pc := s.pc + 2);
      ExecPushes(inst, t, vs[1..]);
      PushThenPush(s, vs);
    }
  }

  /** The code of a string literal pushes the 0 terminator and then the
      characters, last one first. */
  lemma StringCodePushes(text: string)
    ensures StringCode(text) == Pushes([0] + Reverse(Codes(text)))
  {
    var vs := [0] + Reverse(Codes(text));
    assert vs[1..] == Reverse(Codes(text));
  }

  /** A string without NUL pushes no 0 above its terminator. */
  lemma NoTerminatorInside(text: string)
    requires '\0' !in text
    ensures 0 !in Reverse(Codes(text))
  {
    var b := Reverse(Codes(text));
    forall i | 0 <= i < |b| ensures b[i] != 0 {
      assert text[|text| - 1 - i] in text;
    }
  }

  lemma ReverseTwice(xs: seq<int>)
    ensures Reverse(Reverse(xs)) == xs
  {
    assert forall i :: 0 <= i < |xs| ==> Reverse(Reverse(xs))[i] == xs[i];
  }

  /** Pushing `[0] + b` and then PRINT writes `b` in reverse order and
      leaves the towers as they were. */
  lemma PushesThenPrint(inst: seq<int>, s: State, b: seq<int>)
    requires Valid(s) && 0 !in b
    requires s.pc + 2 * (|b| + 1) < |inst|
    requires inst[s.pc..s.pc + 2 * (|b| + 1)] == Pushes([0] + b)
    requires inst[s.pc + 2 * (|b| + 1)] == Opcode(Print)
    ensures Exec(inst, s) == Exec(inst, s.(pc := s.pc + 2 * (|b| + 1) + 1, out := s.out + Emit(Reverse(b))))
  {
    assert |[0] + b| == |b| + 1;
    var t := SetCurrent(s, s.towers[s.cur] + ([0] + b)).(pc := s.pc + 2 * |[0] + b|);
    var printed := SetCurrent(t, s.towers[s.cur]).(pc := t.pc + 1, out := t.out + Emit(Reverse(b)));
    assert Exec(inst, s) == Exec(inst, t) by {
      ExecPushes(inst, s, [0] + b);
    }
    PushedString(s, b);
    assert Exec(inst, t) == Exec(inst, printed) by {
      PrintWritesString(inst, t, s.towers[s.cur], b);
    }
    assert printed == s.(pc := s.pc + 2 * (|b| + 1) + 1, out := s.out + Emit(Reverse(b)));
  }

  /** The state with `[0] + b` pushed, and the state its PRINT leads to. */
  lemma PushedString(s: State, b: seq<int>)
    requires Valid(s)
    ensures var t := SetCurrent(s, s.towers[s.cur] + ([0] + b)).(pc := s.pc + 2 * |[0] + b|);
            && Valid(t) && t.pc == s.pc + 2 * (|b| + 1) && t.towers[t.cur] == s.towers[s.cur] + [0] + b
            && SetCurrent(t, s.towers[s.cur]).(pc := t.pc + 1, out := t.out + Emit(Reverse(b))) ==
               s.(pc := s.pc + 2 * (|b| + 1) + 1, out := s.out + Emit(Reverse(b)))
  {
    var t := SetCurrent(s, s.towers[s.cur] + ([0] + b)).(pc := s.pc + 2 * |[0] + b|);
    assert t.towers[t.cur := s.towers[s.cur]] == s.towers;
  }

  /** The PRINT that follows a pushed string. */
  lemma PrintWritesString(inst: seq<int>, t: State, a: seq<int>, b: seq<int>)
    requires Valid(t) && t.pc < |inst| && inst[t.pc] == Opcode(Print)
    requires t.towers[t.cur] == a + [0] + b && 0 !in b
    ensures Exec(inst, t) == Exec(inst, SetCurrent(t, a).(pc := t.pc + 1, out := t.out + Emit(Reverse(b))))
  {
    assert (a + [0] + b)[|a|] == 0;
    PrintStep(inst, t);
    ExecStep(inst, t);
    PopUntilZeroWrites(a, b);
    assert DoPrint(t).(pc := t.pc + 1) == SetCurrent(t, a).(pc := t.pc + 1, out := t.out + Emit(Reverse(b)));
  }

  /** Text written for characters of the Basic Multilingual Plane is the
      text itself. */
  lemma EmitOfText(text: string)
    requires forall i :: 0 <= i < |text| ==> text[i] as int < 0x1_0000
    ensures Emit(Codes(text)) == Codes(text)
  {
    forall i | 0 <= i < |text| ensures Emit(Codes(text))[i] == Codes(text)[i] {
      assert Codes(text)[i] == text[i] as int;
    }
  }

  /** A delimited token whose text lies on one line, and whose closing
      delimiter does not occur again before the end of that line: the token
      is exactly the delimited text. */
  lemma DelimitedToken(r: Rule, body: string, tail: string)
    requires r == Label || r == Jump || r == StringLiteral
    requires forall i :: 0 <= i < |body| ==> !IsLineTerminator(body[i])
    requires forall i :: 0 <= i < |tail| && OnOneLine(tail, 0, i) ==> tail[i] != Delimiters(r).1
    ensures var text := [Delimiters(r).0] + body + [Delimiters(r).1];
            NextToken(text + tail) == Some(Token(r, text))
  {
    var (open, close) := Delimiters(r);
    var text := [open] + body + [close];
    var src := text + tail;
    var n := |text|;
    assert Delimited(src, open, close, n) by {
      forall i | 1 <= i < n - 1 ensures !IsLineTerminator(src[i]) {
        assert src[i] == body[i - 1];
      }
    }
    DelimitedIsLongest(src, open, close);
    var m := MatchDelimited(src, open, close).value;
    var e := LineEnd(src);
    forall j | n <= j < e ensures src[j] != close {
      assert src[j] == tail[j - n];
      assert OnOneLine(tail, 0, j - n) by {
        forall k | 0 <= k < j - n ensures !IsLineTerminator(tail[k]) {
          assert tail[k] == src[n + k];
        }
      }
    }
    assert m == n;
    MatchingRuleWins(src, r);
    assert src[..n] == text;
  }

  /** A one-character token. */
  lemma SymbolToken(r: Rule, tail: string)
    requires r in {Hanoi, Swap, Pop, Print, Add, Dup, Out}
    ensures NextToken([Symbol(r)] + tail) == Some(Token(r, [Symbol(r)]))
  {
    var src := [Symbol(r)] + tail;
    assert Match(r, src) == Some(1);
    MatchingRuleWins(src, r);
    assert src[..1] == [Symbol(r)];
  }

  /** The characters of `'text'>` on one line: a string literal and PRINT. */
  lemma LexPrintProgram(text: string)
    requires forall i :: 0 <= i < |text| ==> !IsLineTerminator(text[i])
    ensures var src := "'" + text + "'>";
            && NextToken(src) == Some(Token(StringLiteral, src[..|text| + 2]))
            && NextToken(src[|text| + 2..]) == Some(Token(Print, ">"))
  {
    var src := "'" + text + "'>";
    DelimitedToken(StringLiteral, text, ">");
    assert src == ("'" + text + "'") + ">" && src[..|text| + 2] == "'" + text + "'";
    assert src[|text| + 2..] == ">";
    SymbolToken(Print, []);
    assert [Symbol(Print)] + [] == ">";
  }

  /** A string literal on one line, with no further quote before the end of
      that line, appends the code of its text. */
  lemma CompileStringLiteral(p: Program, text: string, rest: string)
    requires WellFormed(p)
    requires forall i :: 0 <= i < |text| ==> !IsLineTerminator(text[i])
    requires forall i :: 0 <= i < |rest| && OnOneLine(rest, 0, i) ==> rest[i] != '\''
    ensures WellFormed(p.(inst := p.inst + StringCode(text)))
    ensures CompileFrom(p, "'" + text + "'" + rest) == CompileFrom(p.(inst := p.inst + StringCode(text)), rest)
  {
    var lit := "'" + text + "'";
    DelimitedToken(StringLiteral, text, rest);
    assert [Delimiters(StringLiteral).0] + text + [Delimiters(StringLiteral).1] == lit;
    var t := Token(StringLiteral, lit);
    CompileToken(p, t, rest);
    assert Inner(lit) == text;
  }

  /** A jump `(name)` on one line, with no further `)` before the end of
      that line, is the JUMP step for `name`; compilation goes on after it. */
  lemma CompileJumpToken(p: Program, name: string, rest: string)
    requires WellFormed(p)
    requires forall i :: 0 <= i < |name| ==> !IsLineTerminator(name[i])
    requires forall i :: 0 <= i < |rest| && OnOneLine(rest, 0, i) ==> rest[i] != ')'
    ensures WellFormed(ApplyJump(p, name))
    ensures CompileFrom(p, "(" + name + ")" + rest) == CompileFrom(ApplyJump(p, name), rest)
  {
    var text := "(" + name + ")";
    DelimitedToken(Jump, name, rest);
    assert [Delimiters(Jump).0] + name + [Delimiters(Jump).1] == text;
    CompileToken(p, Token(Jump, text), rest);
    assert Inner(text) == name;
  }

  /** A label `[name]` on one line, with no further `]` before the end of
      that line, is the LABEL step for `name`; compilation goes on after
      it. */
  lemma CompileLabelToken(p: Program, name: string, rest: string)
    requires WellFormed(p)
    requires forall i :: 0 <= i < |name| ==> !IsLineTerminator(name[i])
    requires forall i :: 0 <= i < |rest| && OnOneLine(rest, 0, i) ==> rest[i] != ']'
    ensures WellFormed(ApplyLabel(p, name))
    ensures CompileFrom(p, "[" + name + "]" + rest) == CompileFrom(ApplyLabel(p, name), rest)
  {
    var text := "[" + name + "]";
    DelimitedToken(Label, name, rest);
    assert [Delimiters(Label).0] + name + [Delimiters(Label).1] == text;
    CompileToken(p, Token(Label, text), rest);
    assert Inner(text) == name;
  }

  /** `'text'>` compiles to the code of the string and PRINT, with no
      labels. */
  lemma CompilePrintProgram(text: string)
    requires forall i :: 0 <= i < |text| ==> !IsLineTerminator(text[i])
    ensures CompileSpec("'" + text + "'>") == Ok(Program(StringCode(text) + [Opcode(Print)], map[]))
  {
    assert "'" + text + "'>" == "'" + text + "'" + ">";
    CompileStringThenPrint(text);
  }

  lemma CompileStringThenPrint(text: string)
    requires forall i :: 0 <= i < |text| ==> !IsLineTerminator(text[i])
    ensures CompileFrom(EmptyProgram, "'" + text + "'" + ">") == Ok(Program(StringCode(text) + [Opcode(Print)], map[]))
  {
    CompileStringLiteral(EmptyProgram, text, ">");
    var p := Program(StringCode(text), map[]);
    assert [] + StringCode(text) == StringCode(text);
    assert EmptyProgram.(inst := EmptyProgram.inst + StringCode(text)) == p;
    CompileFinalPrint(p);
  }

  /** `>` at the end of the input. */
  lemma CompileFinalPrint(p: Program)
    requires WellFormed(p)
    ensures CompileFrom(p, ">") == Ok(p.(inst := p.inst + [Opcode(Print)]))
  {
    assert [Symbol(Print)] + [] == ">";
    CompileSymbol(p, Print, []);
  }

  /** Running the code of a string and PRINT from the initial state writes
      the string and ends with three empty towers. */
  lemma RunPrintProgram(text: string)
    requires '\0' !in text
    ensures Exec(StringCode(text) + [Opcode(Print)], Initial) ==
              Some(State([[], [], []], 0, |StringCode(text)| + 1, Emit(Codes(text))))
  {
    var b := Reverse(Codes(text));
    assert 0 !in b by { NoTerminatorInside(text); }
    assert Reverse(b) == Codes(text) by { ReverseTwice(Codes(text)); }
    assert StringCode(text) == Pushes([0] + b) by { StringCodePushes(text); }
    RunPushesThenPrint(b);
  }

  /** Pushing `[0] + b` and PRINT, from the initial state. */
  lemma RunPushesThenPrint(b: seq<int>)
    requires 0 !in b
    ensures Exec(Pushes([0] + b) + [Opcode(Print)], Initial) ==
              Some(State([[], [], []], 0, 2 * (|b| + 1) + 1, Emit(Reverse(b))))
  {
    var inst := Pushes([0] + b) + [Opcode(Print)];
    var final := State([[], [], []], 0, 2 * (|b| + 1) + 1, Emit(Reverse(b)));
    PushesThenPrintFromInitial(b);
    ExecAtEnd(inst, final);
  }

  /** The code of `[0] + b` and PRINT, run from the initial state, reaches
      its end with the towers empty and `b` reversed written out. */
  lemma PushesThenPrintFromInitial(b: seq<int>)
    requires 0 !in b
    ensures var inst := Pushes([0] + b) + [Opcode(Print)];
            |inst| == 2 * (|b| + 1) + 1 &&
            Exec(inst, Initial) == Exec(inst, State([[], [], []], 0, |inst|, Emit(Reverse(b))))
  {
    var inst := Pushes([0] + b) + [Opcode(Print)];
    assert inst[0..2 * (|b| + 1)] == Pushes([0] + b);
    assert [] + Emit(Reverse(b)) == Emit(Reverse(b));
    assert Initial.(pc := 2 * (|b| + 1) + 1, out := Initial.out + Emit(Reverse(b))) ==
           State([[], [], []], 0, |inst|, Emit(Reverse(b)));
    PushesThenPrint(inst, Initial, b);
  }

  /** `run` stops once `pc` is past the last instruction. */
  lemma ExecAtEnd(inst: seq<int>, s: State)
    requires Valid(s) && s.pc == |inst|
    ensures Exec(inst, s) == Some(s)
  {
  }

  /** The greedy run of a class over `run + tail`, where `run` is all of
      that class and `tail` does not start with it, is `run`. */
  lemma SpanOfRun(cl: CharClass, run: string, tail: string)
    requires forall i :: 0 <= i < |run| ==> InClass(cl, run[i])
    requires tail == [] || !InClass(cl, tail[0])
    ensures Span(cl, run + tail) == |run|
  {
    var src := run + tail;
    assert forall i :: 0 <= i < |run| ==> src[i] == run[i];
    assert |run| < |src| ==> src[|run|] == tail[0];
  }

  /** A run of digits that is not followed by another digit is one LITERAL
      token, with or without leading zeros and also at the end of the input. */
  lemma NumeralToken(digits: string, tail: string)
    requires |digits| > 0 && forall i :: 0 <= i < |digits| ==> IsDigit(digits[i])
    requires tail == [] || !IsDigit(tail[0])
    ensures NextToken(digits + tail) == Some(Token(Literal, digits))
  {
    var src := digits + tail;
    SpanOfRun(Digit, digits, tail);
    MatchingRuleWins(src, Literal);
    assert src[..|digits|] == digits;
  }

  /** A run of `\s` characters that is not followed by another one is one
      WHITESPACE token. */
  lemma BlankToken(blank: string, tail: string)
    requires |blank| > 0 && forall i :: 0 <= i < |blank| ==> IsSpace(blank[i])
    requires tail == [] || !IsSpace(tail[0])
    ensures NextToken(blank + tail) == Some(Token(Whitespace, blank))
  {
    var src := blank + tail;
    SpanOfRun(Space, blank, tail);
    MatchingRuleWins(src, Whitespace);
    assert src[..|blank|] == blank;
  }

  /** The next token of `t.text + rest` is `t`: it is compiled, then `rest`. */
  lemma CompileToken(p: Program, t: Token, rest: string)
    requires WellFormed(p) && NextToken(t.text + rest) == Some(t)
    ensures Lexeme(t) && WellFormed(Apply(p, t))
    ensures CompileFrom(p, t.text + rest) == CompileFrom(Apply(p, t), rest)
  {
    CompileStep(p, t.text + rest, t);
    assert (t.text + rest)[|t.text|..] == rest;
  }

  /** A numeric literal appends `[0, value]`, its value being the number
      the digits spell in decimal; compilation goes on after it. */
  lemma CompileNumeral(p: Program, digits: string, rest: string)
    requires WellFormed(p)
    requires |digits| > 0 && forall i :: 0 <= i < |digits| ==> IsDigit(digits[i])
    requires rest == [] || !IsDigit(rest[0])
    ensures WellFormed(p.(inst := p.inst + [Opcode(Literal), DecimalValue(digits)]))
    ensures CompileFrom(p, digits + rest) ==
              CompileFrom(p.(inst := p.inst + [Opcode(Literal), DecimalValue(digits)]), rest)
  {
    NumeralToken(digits, rest);
    CompileToken(p, Token(Literal, digits), rest);
  }

  /** Whitespace appends nothing. */
  lemma CompileBlank(p: Program, blank: string, rest: string)
    requires WellFormed(p)
    requires |blank| > 0 && forall i :: 0 <= i < |blank| ==> IsSpace(blank[i])
    requires rest == [] || !IsSpace(rest[0])
    ensures CompileFrom(p, blank + rest) == CompileFrom(p, rest)
  {
    BlankToken(blank, rest);
    CompileToken(p, Token(Whitespace, blank), rest);
  }

  /** A one-character token appends its opcode. */
  lemma CompileSymbol(p: Program, r: Rule, rest: string)
    requires WellFormed(p) && r in {Hanoi, Swap, Pop, Print, Add, Dup, Out}
    ensures WellFormed(p.(inst := p.inst + [Opcode(r)]))
    ensures CompileFrom(p, [Symbol(r)] + rest) == CompileFrom(p.(inst := p.inst + [Opcode(r)]), rest)
  {
    SymbolToken(r, rest);
    var t := Token(r, [Symbol(r)]);
    CompileToken(p, t, rest);
    assert Apply(p, t) == ApplyOpcode(p, Opcode(r));
  }

  /** `+` at the end of the input. */
  lemma CompileFinalAdd(p: Program)
    requires WellFormed(p)
    ensures CompileFrom(p, "+") == Ok(p.(inst := p.inst + [Opcode(Add)]))
  {
    assert [Symbol(Add)] + [] == "+";
    CompileSymbol(p, Add, []);
  }

  /** ` b+` appends a LITERAL of `b` and ADD to any program. */
  lemma CompileAddend(p: Program, b: nat)
    requires WellFormed(p)
    ensures CompileFrom(p, " " + Numeral(b) + "+") == Ok(p.(inst := p.inst + [Opcode(Literal), b, Opcode(Add)]))
  {
    var nb := Numeral(b);
    var q := p.(inst := p.inst + [Opcode(Literal), b]);
    assert CompileFrom(p, " " + nb + "+") == CompileFrom(q, "+") by {
      assert " " + nb + "+" == " " + (nb + "+") && (nb + "+")[0] == nb[0];
      CompileBlank(p, " ", nb + "+");
      CompileNumeral(p, nb, "+");
      DecimalValueOfNumeral(b);
    }
    CompileFinalAdd(q);
    assert q.inst + [Opcode(Add)] == p.inst + [Opcode(Literal), b, Opcode(Add)];
  }

  /** A program that starts with the numeral of `a` starts with a LITERAL
      of `a`. */
  lemma CompileLeadingNumeral(a: nat, rest: string)
    requires rest == [] || !IsDigit(rest[0])
    ensures WellFormed(Program([0, a], map[]))
    ensures CompileSpec(Numeral(a) + rest) == CompileFrom(Program([0, a], map[]), rest)
  {
    CompileNumeral(EmptyProgram, Numeral(a), rest);
    DecimalValueOfNumeral(a);
    assert EmptyProgram.(inst := EmptyProgram.inst + [Opcode(Literal), a]) == Program([0, a], map[]);
  }

  /** `a b+` compiles to two LITERALs and ADD. */
  lemma CompileSum(a: nat, b: nat)
    ensures CompileSpec(Numeral(a) + " " + Numeral(b) + "+") == Ok(Program([0, a, 0, b, Opcode(Add)], map[]))
  {
    var rest, p1 := " " + Numeral(b) + "+", Program([0, a], map[]);
    assert Numeral(a) + " " + Numeral(b) + "+" == Numeral(a) + rest && rest[0] == ' ';
    assert p1.(inst := p1.inst + [Opcode(Literal), b, Opcode(Add)]) == Program([0, a, 0, b, Opcode(Add)], map[]);
    CompileLeadingNumeral(a, rest);
    CompileAddend(p1, b);
  }

  /** Running two LITERALs and ADD leaves their sum on the first tower. */
  lemma RunSum(a: int, b: int)
    ensures Exec([0, a, 0, b, Opcode(Add)], Initial) == Some(State([[a + b], [], []], 0, 5, []))
  {
    var inst := [0, a, 0, b, Opcode(Add)];
    assert inst[0..4] == Pushes([a, b]);
    ExecPushes(inst, Initial, [a, b]);
    var s := SetCurrent(Initial, [] + [a, b]).(pc := 4);
    assert s.towers == [[a, b], [], []];
    AddStep(inst, s);
    ExecStep(inst, s);
    var t := Step(inst, s).value;
    assert t == State([[a + b], [], []], 0, 5, []);
  }

  /** HANOI onto the current tower with any count pops and pushes back the
      same item: only the two operands are gone. */
  lemma RunHanoiOntoItself(v: int, count: int)
    ensures Exec([0, v, 0, count, 0, 0, Opcode(Hanoi)], Initial) == Some(State([[v], [], []], 0, 7, []))
  {
    var inst := [0, v, 0, count, 0, 0, Opcode(Hanoi)];
    PushesAppend([v, count], [0]);
    assert [v, count] + [0] == [v, count, 0];
    assert inst[0..6] == Pushes([v, count]) + Pushes([0]);
    ExecPushes(inst, Initial, [v, count, 0]);
    assert [] + [v, count, 0] == [v, count, 0];
    var s := SetCurrent(Initial, [v, count, 0]).(pc := 6);
    assert s.towers == [[v, count, 0], [], []];
    assert HanoiReady(s);
    HanoiMovesToTarget(s);
    HanoiStep(inst, s);
    assert [v, count, 0][..1] == [v];
    assert DoHanoi(s).towers == [[v], [], []];
    ExecStep(inst, s);
    var t := Step(inst, s).value;
    assert t == State([[v], [], []], 0, 7, []);
    ExecAtEnd(inst, t);
  }
}

/** Concrete programs of the hanoi language and what they compile to. */
module ToolchainExamples {
  import opened Lexer
  import opened Compiler
  import opened Toolchain

  /** A jump to a label the empty program does not know. */
  lemma JumpFromEmpty(name: string)
    ensures ApplyJump(EmptyProgram, name) == Program([0, Placeholder], map[name := Pending([1])])
  {
    var r := ApplyJump(EmptyProgram, name);
    assert r.inst == [0, Placeholder];
    assert [] + [1] == [1];
    assert r.keys == map[name := Pending([1])];
  }

  lemma LabelAfterJump(q: Program)
    requires q == Program([0, Placeholder], map["L" := Pending([1])]) && WellFormed(q)
    ensures ApplyLabel(q, "L") == Program([0, 2], map["L" := Defined(2)])
  {
    var r := ApplyLabel(q, "L");
    assert r.inst == Patch(q.inst, [1], 2);
    assert [1][..0] == [];
    assert Patch(q.inst, [1], 2) == [0, 2];
    assert r.keys == q.keys["L" := Defined(2)];
    assert q.keys["L" := Defined(2)] == map["L" := Defined(2)];
  }

  /** A jump before its label: the placeholder is patched with the label's
      offset. */
  lemma ForwardJump()
    ensures CompileSpec("(L)[L]") == Ok(Program([0, 2], map["L" := Defined(2)]))
  {
    var q := Program([0, Placeholder], map["L" := Pending([1])]);
    assert "(L)[L]" == "(" + "L" + ")" + "[L]" && "[L]" == "[" + "L" + "]" + "";
    CompileJumpToken(EmptyProgram, "L", "[L]");
    JumpFromEmpty("L");
    CompileLabelToken(q, "L", "");
    LabelAfterJump(q);
  }

  lemma LabelThenJumpSteps(q: Program)
    requires q == Program([], map["L" := Defined(0)])
    ensures ApplyLabel(EmptyProgram, "L") == q
    ensures WellFormed(q) && ApplyJump(q, "L") == Program([0, 0], map["L" := Defined(0)])
  {
  }

  /** A jump after its label takes the label's offset at once. */
  lemma BackwardJump()
    ensures CompileSpec("[L](L)") == Ok(Program([0, 0], map["L" := Defined(0)]))
  {
    var q := Program([], map["L" := Defined(0)]);
    assert "[L](L)" == "[" + "L" + "]" + "(L)" && "(L)" == "(" + "L" + ")" + "";
    CompileLabelToken(EmptyProgram, "L", "(L)");
    LabelThenJumpSteps(q);
    CompileJumpToken(q, "L", "");
  }

  /** A jump to a label that is never defined keeps the placeholder, and
      its slot stays pending. */
  lemma UndefinedJump()
    ensures CompileSpec("(M)") == Ok(Program([0, Placeholder], map["M" := Pending([1])]))
  {
    assert "(M)" == "(" + "M" + ")" + "";
    CompileJumpToken(EmptyProgram, "M", "");
    JumpFromEmpty("M");
  }

  /** A numeral with leading zeros, as the last token of the input, is read
      as the number it spells in decimal (`parseInt("007")` is 7). */
  lemma LeadingZeros()
    ensures CompileSpec("007") == Ok(Program([0, 7], map[]))
  {
    assert DecimalValue("007") == 7 by {
      assert "007"[..2] == "00" && "00"[..1] == "0" && "0"[..0] == "";
    }
    CompileNumeral(EmptyProgram, "007", "");
    assert "007" + "" == "007";
    assert EmptyProgram.(inst := EmptyProgram.inst + [Opcode(Literal), 7]) == Program([0, 7], map[]);
  }
}
