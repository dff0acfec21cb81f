/** The one-pass compiler: the `compile` actions of the token table, the
    label table with back-patching of forward references, and the loop that
    consumes the input token by token. */
module Compiler {
  import opened Lexer
  import opened Seqs

  /** A label-table entry: the offset of a defined label, or the operand
      slots of the jump references that came before its definition. */
  datatype LabelEntry = Defined(jump: nat) | Pending(unresolved: seq<nat>)

  /** A compiled program: the instruction array and the label table. */
  datatype Program = Program(inst: seq<int>, keys: map<string, LabelEntry>)

  /** Compilation stops at the first prefix no rule matches; the error keeps
      the first 20 characters of the line where it happened. */
  datatype CompileError = Unparseable(excerpt: string)

  datatype Result = Ok(program: Program) | Err(error: CompileError)

  /** The operand a jump reference gets while its label is still undefined. */
  const Placeholder: int := -1

  const EmptyProgram := Program([], map[])

  /** The token text without its first and last character. */
  function Inner(text: string): (name: string)
    requires |text| >= 2
    ensures |name| == |text| - 2
    ensures forall i :: 0 <= i < |name| ==> name[i] == text[i + 1]
  {
    text[1..|text| - 1]
  }

  /** The value of a decimal numeral (`parseInt` of a run of digits). */
  function DecimalValue(digits: string): (v: nat)
    requires forall i :: 0 <= i < |digits| ==> IsDigit(digits[i])
    decreases |digits|
  {
    if digits == [] then 0
    else
      assert IsDigit(digits[|digits| - 1]);
      10 * DecimalValue(digits[..|digits| - 1]) + (digits[|digits| - 1] as int - '0' as int)
  }

  /** The character codes of a string. */
  function Codes(text: string): (codes: seq<int>)
    ensures |codes| == |text|
    ensures forall i :: 0 <= i < |text| ==> codes[i] == text[i] as int
  {
    seq(|text|, i requires 0 <= i < |text| => text[i] as int)
  }

  /** One LITERAL instruction, opcode then operand, per value. */
  function Pushes(vs: seq<int>): (code: seq<int>)
    ensures |code| == 2 * |vs|
  {
    if vs == [] then [] else [Opcode(Literal), vs[0]] + Pushes(vs[1..])
  }

  lemma {:induction false} PushesAt(vs: seq<int>, i: nat)
    requires i < |vs|
    ensures Pushes(vs)[2 * i] == Opcode(Literal) && Pushes(vs)[2 * i + 1] == vs[i]
  {
    if i > 0 {
      PushesAt(vs[1..], i - 1);
      assert Pushes(vs) == [Opcode(Literal), vs[0]] + Pushes(vs[1..]);
    }
  }

  lemma {:induction false} PushesAppend(vs: seq<int>, ws: seq<int>)
    ensures Pushes(vs + ws) == Pushes(vs) + Pushes(ws)
  {
    if vs != [] {
      PushesAppend(vs[1..], ws);
      assert (vs + ws)[1..] == vs[1..] + ws;
    } else {
      assert vs + ws == ws;
    }
  }

  /** The code of a string literal: a LITERAL pushing the 0 terminator, then
      one LITERAL per character, last character first. */
  function StringCode(text: string): (code: seq<int>)
    ensures |code| == 2 * (|text| + 1)
  {
    [Opcode(Literal), 0] + Pushes(Reverse(Codes(text)))
  }

  lemma PushesOfCodesSnoc(chars: string, i: nat)
    requires i < |chars|
    ensures Pushes(Codes(chars[..i + 1])) == Pushes(Codes(chars[..i])) + [Opcode(Literal), chars[i] as int]
  {
    assert Codes(chars[..i + 1]) == Codes(chars[..i]) + [chars[i] as int];
    PushesAppend(Codes(chars[..i]), [chars[i] as int]);
  }

  lemma StringCodeIsPushes(text: string, chars: string)
    requires chars == Reverse(text)
    ensures StringCode(text) == [Opcode(Literal), 0] + Pushes(Codes(chars[..|chars|]))
  {
    assert chars[..|chars|] == chars;
    assert Codes(chars) == Reverse(Codes(text));
  }

  /** The instruction array after back-patching: the listed slots, in order,
      overwritten with `target`. */
  function Patch(inst: seq<int>, slots: seq<nat>, target: int): (r: seq<int>)
    requires forall k :: 0 <= k < |slots| ==> slots[k] < |inst|
    ensures |r| == |inst|
    ensures forall i :: 0 <= i < |inst| ==> r[i] == if i in slots then target else inst[i]
    decreases |slots|
  {
    if slots == [] then inst
    else
      var last := slots[|slots| - 1];
      var r := Patch(inst, slots[..|slots| - 1], target)[last := target];
      assert forall i :: i in slots <==> i in slots[..|slots| - 1] || i == last by {
        assert slots == slots[..|slots| - 1] + [last];
      }
      r
  }

  lemma PatchStep(inst: seq<int>, slots: seq<nat>, i: nat, target: int)
    requires i < |slots| && forall k :: 0 <= k < |slots| ==> slots[k] < |inst|
    ensures Patch(inst, slots[..i + 1], target) == Patch(inst, slots[..i], target)[slots[i] := target]
  {
    assert slots[..i + 1][..i] == slots[..i];
  }

  /** The pending slot `s` of label `name`. */
  ghost predicate PendingSlot(p: Program, name: string, s: nat) {
    name in p.keys && p.keys[name].Pending? && s in p.keys[name].unresolved
  }

  /** The invariant of the label table: every pending slot is the operand of
      a LITERAL opcode and still holds the placeholder, no slot is pending
      for two labels, and defined offsets lie within the program. */
  ghost predicate WellFormed(p: Program) {
    && (forall name, s: nat :: PendingSlot(p, name, s) ==>
          0 < s < |p.inst| && p.inst[s] == Placeholder && p.inst[s - 1] == Opcode(Literal))
    && (forall n1, n2, s: nat :: PendingSlot(p, n1, s) && PendingSlot(p, n2, s) ==> n1 == n2)
    && (forall name :: name in p.keys && p.keys[name].Defined? ==> p.keys[name].jump <= |p.inst|)
  }

  /** Appending code leaves the pending slots and their placeholders intact. */
  lemma AppendPreservesWellFormed(p: Program, code: seq<int>)
    requires WellFormed(p)
    ensures WellFormed(p.(inst := p.inst + code))
  {
    var r := p.(inst := p.inst + code);
    forall n, s: nat | PendingSlot(r, n, s)
      ensures 0 < s < |r.inst| && r.inst[s] == Placeholder && r.inst[s - 1] == Opcode(Literal)
    {
      assert PendingSlot(p, n, s);
    }
    forall n1, n2, s: nat | PendingSlot(r, n1, s) && PendingSlot(r, n2, s) ensures n1 == n2 {
      assert PendingSlot(p, n1, s) && PendingSlot(p, n2, s);
    }
  }

  /** A rule without a compile action: its opcode is appended. */
  function ApplyOpcode(p: Program, op: nat): (r: Program) {
    p.(inst := p.inst + [op])
  }

  /** LITERAL: opcode 0 and the value of the numeral. */
  function ApplyLiteral(p: Program, digits: string): (r: Program)
    requires forall i :: 0 <= i < |digits| ==> IsDigit(digits[i])
  {
    p.(inst := p.inst + [Opcode(Literal), DecimalValue(digits)])
  }

  /** LABEL: the label is now defined at the current length of the array;
      the slots that were waiting for it receive that offset. */
  function ApplyLabel(p: Program, name: string): (r: Program)
    requires WellFormed(p)
  {
    var target := |p.inst|;
    var inst :=
      if name in p.keys && p.keys[name].Pending? then
        var slots := p.keys[name].unresolved;
        assert forall k :: 0 <= k < |slots| ==> PendingSlot(p, name, slots[k]);
        Patch(p.inst, slots, target)
      else p.inst;
    Program(inst, p.keys[name := Defined(target)])
  }

  /** JUMP: a LITERAL whose operand is the offset of the label when it is
      already defined, and otherwise the placeholder, whose slot is recorded
      in the label's pending list. */
  function ApplyJump(p: Program, name: string): (r: Program) {
    if name in p.keys && p.keys[name].Defined? then
      p.(inst := p.inst + [Opcode(Literal), p.keys[name].jump])
    else
      var pending := if name in p.keys then p.keys[name].unresolved else [];
      Program(p.inst + [Opcode(Literal), Placeholder], p.keys[name := Pending(pending + [|p.inst| + 1])])
  }

  /** STRING_LITERAL: the code of the text between the quotes. */
  function ApplyString(p: Program, text: string): (r: Program) {
    p.(inst := p.inst + StringCode(text))
  }

  /** A token as the lexer produces it: its text is accepted by its rule. */
  ghost predicate Lexeme(t: Token) {
    Accepts(t.rule, t.text, |t.text|)
  }

  lemma NextTokenIsLexeme(s: string)
    requires NextToken(s).Some?
    ensures Lexeme(NextToken(s).value)
  {
    var t := NextToken(s).value;
    MatchIsLongestAccepted(t.rule, s);
    assert t.text == s[..|t.text|];
  }

  /** The compile step of one token, as `next` dispatches it. */
  function Apply(p: Program, t: Token): (r: Program)
    requires WellFormed(p) && Lexeme(t)
  {
    match t.rule
    case Literal => ApplyLiteral(p, t.text)
    case Label => ApplyLabel(p, Inner(t.text))
    case Jump => ApplyJump(p, Inner(t.text))
    case StringLiteral => ApplyString(p, Inner(t.text))
    case Comment => p
    case Whitespace => p
    case _ => ApplyOpcode(p, Opcode(t.rule))
  }

  lemma ApplyLabelPreservesWellFormed(p: Program, name: string)
    requires WellFormed(p)
    ensures WellFormed(ApplyLabel(p, name))
  {
    var r := ApplyLabel(p, name);
    var target := |p.inst|;
    var patched := if name in p.keys && p.keys[name].Pending? then p.keys[name].unresolved else [];
    assert forall i :: 0 <= i < |p.inst| ==> r.inst[i] == if i in patched then target else p.inst[i];
    forall n, s: nat | PendingSlot(r, n, s)
      ensures 0 < s < |r.inst| && r.inst[s] == Placeholder && r.inst[s - 1] == Opcode(Literal)
    {
      assert PendingSlot(p, n, s);
      assert s !in patched by {
        if s in patched { assert PendingSlot(p, name, s); }
      }
      assert s - 1 !in patched by {
        if s - 1 in patched { assert PendingSlot(p, name, s - 1); }
      }
    }
    forall n1, n2, s: nat | PendingSlot(r, n1, s) && PendingSlot(r, n2, s) ensures n1 == n2 {
      assert PendingSlot(p, n1, s) && PendingSlot(p, n2, s);
    }
  }

  lemma ApplyJumpPreservesWellFormed(p: Program, name: string)
    requires WellFormed(p)
    ensures WellFormed(ApplyJump(p, name))
  {
    var r := ApplyJump(p, name);
    if name in p.keys && p.keys[name].Defined? {
      AppendPreservesWellFormed(p, [Opcode(Literal), p.keys[name].jump]);
    } else {
      var slot := |p.inst| + 1;
      forall n, s: nat | PendingSlot(r, n, s)
        ensures 0 < s < |r.inst| && r.inst[s] == Placeholder && r.inst[s - 1] == Opcode(Literal)
      {
        if s != slot { assert PendingSlot(p, n, s); }
      }
      forall n1, n2, s: nat | PendingSlot(r, n1, s) && PendingSlot(r, n2, s) ensures n1 == n2 {
        if s != slot {
          assert PendingSlot(p, n1, s) && PendingSlot(p, n2, s);
        } else {
          assert n1 != name ==> PendingSlot(p, n1, s);
          assert n2 != name ==> PendingSlot(p, n2, s);
        }
      }
    }
  }

  /** A label definition records the current length of the array as its
      offset, writes that offset into every slot pending for it, and changes
      no other slot; its pending list is gone. */
  lemma LabelDefinition(p: Program, name: string)
    requires WellFormed(p)
    ensures ApplyLabel(p, name).keys == p.keys[name := Defined(|p.inst|)]
    ensures |ApplyLabel(p, name).inst| == |p.inst|
    ensures forall i :: 0 <= i < |p.inst| ==>
              ApplyLabel(p, name).inst[i] == if PendingSlot(p, name, i) then |p.inst| else p.inst[i]
  {
  }

  /** A jump reference appends a LITERAL whose operand is the offset of an
      already defined label, or else the placeholder, whose slot becomes the
      one new pending slot of the label. */
  lemma JumpReference(p: Program, name: string)
    requires WellFormed(p)
    ensures var defined := name in p.keys && p.keys[name].Defined?;
            ApplyJump(p, name).inst ==
              p.inst + [Opcode(Literal), if defined then p.keys[name].jump else Placeholder]
    ensures name in p.keys && p.keys[name].Defined? ==> ApplyJump(p, name).keys == p.keys
    ensures !(name in p.keys && p.keys[name].Defined?) ==>
              forall n, s: nat :: PendingSlot(ApplyJump(p, name), n, s) <==>
                PendingSlot(p, n, s) || (n == name && s == |p.inst| + 1)
  {
  }

  /** Every compile step keeps the label-table invariant. */
  lemma ApplyPreservesWellFormed(p: Program, t: Token)
    requires WellFormed(p) && Lexeme(t)
    ensures WellFormed(Apply(p, t))
  {
    match t.rule
    case Label => ApplyLabelPreservesWellFormed(p, Inner(t.text));
    case Jump => ApplyJumpPreservesWellFormed(p, Inner(t.text));
    case Literal => AppendPreservesWellFormed(p, [Opcode(Literal), DecimalValue(t.text)]);
    case StringLiteral => AppendPreservesWellFormed(p, StringCode(Inner(t.text)));
    case Comment =>
    case Whitespace =>
    case _ => AppendPreservesWellFormed(p, [Opcode(t.rule)]);
  }

  /** The slots one token adds to the instruction array. */
  function Width(t: Token): nat {
    match t.rule
    case Literal => 2
    case Jump => 2
    case StringLiteral => if |t.text| >= 2 then 2 * (|t.text| - 1) else 0
    case Label => 0
    case Comment => 0
    case Whitespace => 0
    case _ => 1
  }

  function Widths(ts: seq<Token>): nat {
    if ts == [] then 0 else Width(ts[0]) + Widths(ts[1..])
  }

  /** Instruction-length arithmetic of one compile step. */
  lemma ApplyWidth(p: Program, t: Token)
    requires WellFormed(p) && Lexeme(t)
    ensures |Apply(p, t).inst| == |p.inst| + Width(t)
  {
  }

  /** Every token except a label only appends to the instruction array. */
  lemma ApplyAppends(p: Program, t: Token)
    requires WellFormed(p) && Lexeme(t) && t.rule != Label
    ensures p.inst <= Apply(p, t).inst
  {
  }

  /** A label appends nothing and only rewrites placeholder slots, with the
      current length of the array. */
  lemma ApplyLabelOnlyPatchesPlaceholders(p: Program, t: Token)
    requires WellFormed(p) && Lexeme(t) && t.rule == Label
    ensures |Apply(p, t).inst| == |p.inst|
    ensures forall i :: 0 <= i < |p.inst| ==>
              Apply(p, t).inst[i] == p.inst[i] || (p.inst[i] == Placeholder && Apply(p, t).inst[i] == |p.inst|)
  {
    var name := Inner(t.text);
    if name in p.keys && p.keys[name].Pending? {
      forall i | 0 <= i < |p.inst| && i in p.keys[name].unresolved ensures p.inst[i] == Placeholder {
        assert PendingSlot(p, name, i);
      }
    }
  }

  /** The first line of `s` (`split('\n')[0]`). */
  function FirstLine(s: string): (line: string)
    ensures line <= s && '\n' !in line
    ensures |line| == |s| || s[|line|] == '\n'
  {
    if s == [] || s[0] == '\n' then [] else [s[0]] + FirstLine(s[1..])
  }

  /** The diagnostic of a compile error: the first 20 characters of the line. */
  function Excerpt(s: string): (e: string)
    ensures e <= FirstLine(s) && |e| <= 20
    ensures |e| == 20 || e == FirstLine(s)
  {
    var line := FirstLine(s);
    if |line| <= 20 then line else line[..20]
  }

  /** Compilation of the remaining input `rest` into the partial program `p`:
      one token at a time, failing at the first prefix no rule matches. */
  function CompileFrom(p: Program, rest: string): (r: Result)
    requires WellFormed(p)
    decreases |rest|
  {
    if rest == [] then Ok(p)
    else match NextToken(rest)
      case None => Err(Unparseable(Excerpt(rest)))
      case Some(t) =>
        NextTokenIsLexeme(rest);
        ApplyPreservesWellFormed(p, t);
        CompileFrom(Apply(p, t), rest[|t.text|..])
  }

  /** One call of `next` on a non-empty input: the step of the next token,
      then compilation of what follows it. */
  lemma CompileStep(p: Program, rest: string, t: Token)
    requires WellFormed(p) && NextToken(rest) == Some(t)
    ensures Lexeme(t) && WellFormed(Apply(p, t))
    ensures CompileFrom(p, rest) == CompileFrom(Apply(p, t), rest[|t.text|..])
  {
    NextTokenIsLexeme(rest);
    ApplyPreservesWellFormed(p, t);
  }

  /** `compile(programString)`. */
  function CompileSpec(src: string): Result {
    CompileFrom(EmptyProgram, src)
  }

  /** The program object that `compile` fills in place. */
  class Builder {
    var inst: seq<int>
    var keys: map<string, LabelEntry>

    function Value(): Program
      reads this
    {
      Program(inst, keys)
    }

    ghost predicate Valid()
      reads this
    {
      WellFormed(Value())
    }

    constructor ()
      ensures Valid() && Value() == EmptyProgram
    {
      inst := [];
      keys := map[];
    }

    /** `program.inst.push(lex.index)` for a rule without a compile action. */
    method CompileOpcode(op: nat)
      requires Valid()
      modifies this
      ensures Valid()
      ensures inst == old(inst) + [op] && keys == old(keys)
    {
      AppendPreservesWellFormed(Value(), [op]);
      inst := inst + [op];
    }

    /** The compile action of LITERAL. */
    method CompileLiteral(text: string)
      requires Valid()
      requires forall i :: 0 <= i < |text| ==> IsDigit(text[i])
      modifies this
      ensures Valid()
      ensures inst == old(inst) + [Opcode(Literal), DecimalValue(text)] && keys == old(keys)
    {
      AppendPreservesWellFormed(Value(), [Opcode(Literal), DecimalValue(text)]);
      inst := inst + [Opcode(Literal)];
      inst := inst + [DecimalValue(text)];
    }

    /** The compile action of LABEL: define the label at the current length
        and back-patch every slot that was waiting for it. */
    method CompileLabel(text: string)
      requires Valid() && |text| >= 2
      modifies this
      ensures Valid()
      ensures Value() == ApplyLabel(old(Value()), Inner(text))
    {
      var name := Inner(text);
      ghost var v := Value();
      ApplyLabelPreservesWellFormed(v, name);
      var target := |inst|;
      var entry := if name in keys then keys[name] else Pending([]);
      keys := keys[name := Defined(target)];
      if entry.Defined? {
        return;
      }
      var slots := entry.unresolved;
      assert forall k :: 0 <= k < |slots| ==> PendingSlot(v, name, slots[k]);
      PatchLoop(slots, target);
      assert slots[..|slots|] == slots;
    }

    /** The back-patching loop: every listed slot receives `target`. */
    method PatchLoop(slots: seq<nat>, target: int)
      requires forall k :: 0 <= k < |slots| ==> slots[k] < |inst|
      modifies this
      ensures inst == Patch(old(inst), slots, target) && keys == old(keys)
    {
      for i := 0 to |slots|
        invariant |inst| == |old(inst)| && keys == old(keys)
        invariant inst == Patch(old(inst), slots[..i], target)
      {
        PatchStep(old(inst), slots, i, target);
        inst := inst[slots[i] := target];
      }
      assert slots[..|slots|] == slots;
    }

    /** The compile action of JUMP. */
    method CompileJump(text: string)
      requires Valid() && |text| >= 2
      modifies this
      ensures Valid()
      ensures Value() == ApplyJump(old(Value()), Inner(text))
    {
      var name := Inner(text);
      ghost var v := Value();
      ApplyJumpPreservesWellFormed(v, name);
      if name !in keys {
        keys := keys[name := Pending([])];
      }
      var entry := keys[name];
      inst := inst + [Opcode(Literal)];
      if entry.Pending? {
        inst := inst + [Placeholder];
        keys := keys[name := Pending(entry.unresolved + [|inst| - 1])];
        assert Value() == ApplyJump(v, name);
      } else {
        inst := inst + [entry.jump];
        assert Value() == ApplyJump(v, name);
      }
    }

    /** The compile action of STRING_LITERAL. */
    method CompileString(text: string)
      requires Valid() && |text| >= 2
      modifies this
      ensures Valid()
      ensures inst == old(inst) + StringCode(Inner(text)) && keys == old(keys)
    {
      ghost var appended := Value().(inst := inst + StringCode(Inner(text)));
      AppendPreservesWellFormed(Value(), StringCode(Inner(text)));
      ghost var start := inst + [Opcode(Literal), 0];
      var chars := Reverse(Inner(text));
      inst := inst + [Opcode(Literal), 0];
      for i := 0 to |chars|
        invariant inst == start + Pushes(Codes(chars[..i]))
        invariant keys == old(keys)
      {
        PushesOfCodesSnoc(chars, i);
        inst := inst + [Opcode(Literal)];
        inst := inst + [chars[i] as int];
      }
      StringCodeIsPushes(Inner(text), chars);
      assert Value() == appended;
    }

    /** `next`: try the rules in table order on the remaining input, run the
        compile action of the first that matches, and drop its match. */
    method Next(rest: string) returns (r: Option<string>)
      requires Valid()
      modifies this
      ensures Valid()
      ensures NextToken(rest).None? ==> r.None? && Value() == old(Value())
      ensures NextToken(rest).Some? ==>
                Lexeme(NextToken(rest).value) &&
                r == Some(rest[|NextToken(rest).value.text|..]) && Value() == Apply(old(Value()), NextToken(rest).value)
    {
      var i := 0;
      while i < |Rules|
        invariant i <= |Rules|
        invariant forall j :: 0 <= j < i ==> Match(Rules[j], rest).None?
      {
        var m := Match(Rules[i], rest);
        if m.Some? {
          var rule := Rules[i];
          var text := rest[..m.value];
          MatchingRuleWins(rest, rule);
          NextTokenIsLexeme(rest);
          assert NextToken(rest) == Some(Token(rule, text));
          match rule {
            case Literal => CompileLiteral(text);
            case Label => CompileLabel(text);
            case Jump => CompileJump(text);
            case StringLiteral => CompileString(text);
            case Comment =>
            case Whitespace =>
            case _ => CompileOpcode(i);
          }
          return Some(rest[m.value..]);
        }
        i := i + 1;
      }
      forall r: Rule ensures Match(r, rest).None? {
        assert Rules[Opcode(r)] == r;
      }
      return None;
    }
  }

  /** `compile`: a fresh program object filled one token at a time. */
  method Compile(src: string) returns (r: Result)
    ensures r == CompileSpec(src)
  {
    var program := new Builder();
    var rest := src;
    while |rest| > 0
      invariant program.Valid()
      invariant CompileFrom(program.Value(), rest) == CompileSpec(src)
      decreases |rest|
    {
      var next := program.Next(rest);
      if next.None? {
        return Err(Unparseable(Excerpt(rest)));
      }
      rest := next.value;
    }
    return Ok(program.Value());
  }

  /** The decimal numeral of a natural number, most significant digit first. */
  function Numeral(n: nat): (digits: string)
    ensures |digits| > 0
    ensures forall i :: 0 <= i < |digits| ==> IsDigit(digits[i])
    decreases n
  {
    var d := ('0' as int + n % 10) as char;
    if n < 10 then [d] else Numeral(n / 10) + [d]
  }

  /** The value of a numeral is the number it spells. */
  lemma {:induction false} DecimalValueOfNumeral(n: nat)
    ensures DecimalValue(Numeral(n)) == n
    decreases n
  {
    var digits := Numeral(n);
    if n >= 10 {
      DecimalValueOfNumeral(n / 10);
      assert digits[..|digits| - 1] == Numeral(n / 10);
    }
  }

  ghost predicate AllLexemes(ts: seq<Token>) {
    forall i {:trigger Lexeme(ts[i])} :: 0 <= i < |ts| ==> Lexeme(ts[i])
  }

  /** The compile steps of a token sequence, in order. */
  function ApplyAll(p: Program, ts: seq<Token>): (r: Program)
    requires WellFormed(p) && AllLexemes(ts)
    ensures WellFormed(r)
    decreases |ts|
  {
    if ts == [] then p
    else
      ApplyPreservesWellFormed(p, ts[0]);
      ApplyAll(Apply(p, ts[0]), ts[1..])
  }

  /** The instruction array grows by the widths of the tokens. */
  lemma {:induction false} ApplyAllWidth(p: Program, ts: seq<Token>)
    requires WellFormed(p) && AllLexemes(ts)
    ensures |ApplyAll(p, ts).inst| == |p.inst| + Widths(ts)
    decreases |ts|
  {
    if ts != [] {
      ApplyPreservesWellFormed(p, ts[0]);
      ApplyWidth(p, ts[0]);
      ApplyAllWidth(Apply(p, ts[0]), ts[1..]);
    }
  }

  lemma {:induction false} LexYieldsLexemes(s: string)
    ensures AllLexemes(Lex(s).0)
    decreases |s|
  {
    if s != [] && NextToken(s).Some? {
      var t := NextToken(s).value;
      NextTokenIsLexeme(s);
      LexYieldsLexemes(s[|t.text|..]);
    }
  }

  /** Compilation is lexing followed by the compile steps of the tokens:
      it succeeds exactly when the lexer consumes the whole input, and
      otherwise reports the line where the lexer stopped. */
  lemma {:induction false} CompileIsLexThenApply(p: Program, rest: string)
    requires WellFormed(p)
    ensures AllLexemes(Lex(rest).0) &&
            CompileFrom(p, rest) ==
              if Lex(rest).1 == [] then Ok(ApplyAll(p, Lex(rest).0))
              else Err(Unparseable(Excerpt(Lex(rest).1)))
    decreases |rest|
  {
    LexYieldsLexemes(rest);
    if rest != [] && NextToken(rest).Some? {
      var t := NextToken(rest).value;
      var tail := rest[|t.text|..];
      NextTokenIsLexeme(rest);
      ApplyPreservesWellFormed(p, t);
      CompileIsLexThenApply(Apply(p, t), tail);
      assert ([t] + Lex(tail).0)[1..] == Lex(tail).0;
    }
  }

  /** `compile` either consumes the whole input or fails at a remaining
      input that no rule of the table matches, after the tokens that did
      match (which spell the input up to there). */
  lemma CompileFailsOnlyWhereNoRuleMatches(src: string)
    ensures CompileSpec(src).Err? <==> Lex(src).1 != [] && NextToken(Lex(src).1).None?
  {
    CompileIsLexThenApply(EmptyProgram, src);
    LexStops(src);
  }

  /** The diagnostic of a failed compilation is taken from the input left
      when no rule matched. */
  lemma CompileErrorExcerpt(src: string)
    requires CompileSpec(src).Err?
    ensures CompileSpec(src).error == Unparseable(Excerpt(Lex(src).1))
    ensures Texts(Lex(src).0) + Lex(src).1 == src
  {
    CompileIsLexThenApply(EmptyProgram, src);
    LexConsumes(src);
  }

  /** A compiled program has one slot per token width, and keeps the
      label-table invariant: in particular every jump to a label that was
      never defined still holds the placeholder, as the operand of a
      LITERAL. */
  lemma CompiledProgramShape(src: string)
    requires CompileSpec(src).Ok?
    ensures |CompileSpec(src).program.inst| == Widths(Lex(src).0)
    ensures WellFormed(CompileSpec(src).program)
  {
    CompileIsLexThenApply(EmptyProgram, src);
    ApplyAllWidth(EmptyProgram, Lex(src).0);
  }

  /** A jump to a label the program never defines keeps the placeholder as
      the operand of its LITERAL. */
  lemma UndefinedLabelKeepsPlaceholder(src: string, name: string, slot: nat)
    requires CompileSpec(src).Ok? && PendingSlot(CompileSpec(src).program, name, slot)
    ensures 0 < slot < |CompileSpec(src).program.inst|
    ensures CompileSpec(src).program.inst[slot] == Placeholder
    ensures CompileSpec(src).program.inst[slot - 1] == Opcode(Literal)
  {
    CompiledProgramShape(src);
  }

  /** The token `[name]`, a definition of label `name`. */
  predicate Defines(t: Token, name: string) {
    t.rule == Label && |t.text| >= 2 && Inner(t.text) == name
  }

  /** The token `(name)`, a reference to label `name`. */
  predicate RefersTo(t: Token, name: string) {
    t.rule == Jump && |t.text| >= 2 && Inner(t.text) == name
  }

  ghost predicate Undefined(p: Program, name: string) {
    !(name in p.keys && p.keys[name].Defined?)
  }

  /** A token that does not define `name` keeps every slot pending for it
      pending, and keeps `name` undefined. */
  lemma ApplyKeepsPending(p: Program, t: Token, name: string)
    requires WellFormed(p) && Lexeme(t) && !Defines(t, name)
    ensures forall s: nat :: PendingSlot(p, name, s) ==> PendingSlot(Apply(p, t), name, s)
    ensures Undefined(p, name) ==> Undefined(Apply(p, t), name)
  {
    if t.rule == Label {
      LabelDefinition(p, Inner(t.text));
    } else if t.rule == Jump {
      JumpReference(p, Inner(t.text));
    }
  }

  /** Tokens none of which defines `name` keep every slot pending for it
      pending. */
  lemma {:induction false} ApplyAllKeepsPending(p: Program, ts: seq<Token>, name: string, s: nat)
    requires WellFormed(p) && AllLexemes(ts) && PendingSlot(p, name, s)
    requires forall i :: 0 <= i < |ts| ==> !Defines(ts[i], name)
    ensures PendingSlot(ApplyAll(p, ts), name, s)
    decreases |ts|
  {
    if ts != [] {
      ApplyKeepsPending(p, ts[0], name);
      ApplyPreservesWellFormed(p, ts[0]);
      assert forall i :: 0 <= i < |ts[1..]| ==> ts[1..][i] == ts[i + 1];
      ApplyAllKeepsPending(Apply(p, ts[0]), ts[1..], name, s);
    }
  }

  /** A reference `(name)` at position `i` of a token sequence that never
      defines `name` leaves its operand slot, `Widths(ts[..i])` slots after
      the start of the sequence's code and one past its LITERAL opcode,
      pending for `name`. */
  lemma {:induction false} ReferenceStaysPending(p: Program, ts: seq<Token>, name: string, i: nat)
    requires WellFormed(p) && AllLexemes(ts) && Undefined(p, name)
    requires forall j :: 0 <= j < |ts| ==> !Defines(ts[j], name)
    requires i < |ts| && RefersTo(ts[i], name)
    ensures PendingSlot(ApplyAll(p, ts), name, |p.inst| + Widths(ts[..i]) + 1)
    decreases i
  {
    ApplyPreservesWellFormed(p, ts[0]);
    var q := Apply(p, ts[0]);
    assert forall j :: 0 <= j < |ts[1..]| ==> ts[1..][j] == ts[j + 1];
    if i == 0 {
      JumpReference(p, name);
      assert PendingSlot(q, name, |p.inst| + 1);
      ApplyAllKeepsPending(q, ts[1..], name, |p.inst| + 1);
      assert ts[..0] == [];
    } else {
      ApplyKeepsPending(p, ts[0], name);
      ApplyWidth(p, ts[0]);
      ReferenceStaysPending(q, ts[1..], name, i - 1);
      assert ts[..i][1..] == ts[1..][..i - 1];
      assert Widths(ts[..i]) == Width(ts[0]) + Widths(ts[1..][..i - 1]);
    }
  }

  /** The jump of the `i`-th token, to a label no token defines, keeps the
      placeholder as the operand of its LITERAL, pending for `name`. */
  lemma ReferenceLeftPending(p: Program, ts: seq<Token>, name: string, i: nat)
    requires WellFormed(p) && AllLexemes(ts) && Undefined(p, name)
    requires forall j :: 0 <= j < |ts| ==> !Defines(ts[j], name)
    requires i < |ts| && RefersTo(ts[i], name)
    ensures var q := ApplyAll(p, ts);
            var s := |p.inst| + Widths(ts[..i]) + 1;
            && s < |q.inst| && q.inst[s] == Placeholder && q.inst[s - 1] == Opcode(Literal)
            && PendingSlot(q, name, s)
  {
    ReferenceStaysPending(p, ts, name, i);
  }

  /** A successful compilation is the compile steps of the tokens `Lex`
      finds, applied to the empty program. */
  lemma CompiledFromTokens(src: string)
    requires CompileSpec(src).Ok?
    ensures AllLexemes(Lex(src).0) && CompileSpec(src).program == ApplyAll(EmptyProgram, Lex(src).0)
    ensures WellFormed(CompileSpec(src).program)
  {
    CompileIsLexThenApply(EmptyProgram, src);
    CompiledProgramShape(src);
  }

  /** In a compiled program, every jump `(name)` to a label that the source
      never defines keeps the placeholder `-1` as the operand of its LITERAL,
      and its slot is pending for `name`. */
  lemma UndefinedLabelLeavesPlaceholder(src: string, name: string, i: nat)
    requires CompileSpec(src).Ok?
    requires i < |Lex(src).0| && RefersTo(Lex(src).0[i], name)
    requires forall j :: 0 <= j < |Lex(src).0| ==> !Defines(Lex(src).0[j], name)
    ensures var prog := CompileSpec(src).program;
            var slot := Widths(Lex(src).0[..i]) + 1;
            && slot < |prog.inst| && prog.inst[slot] == Placeholder && prog.inst[slot - 1] == Opcode(Literal)
            && PendingSlot(prog, name, slot)
  {
    CompiledFromTokens(src);
    ReferenceLeftPending(EmptyProgram, Lex(src).0, name, i);
  }

  /** A slot that no longer holds the placeholder keeps its value through
      every later compile step: only labels rewrite slots, and only
      placeholder ones. */
  lemma {:induction false} ApplyAllKeepsResolved(p: Program, ts: seq<Token>, s: nat)
    requires WellFormed(p) && AllLexemes(ts)
    requires s < |p.inst| && p.inst[s] != Placeholder
    ensures s < |ApplyAll(p, ts).inst| && ApplyAll(p, ts).inst[s] == p.inst[s]
    decreases |ts|
  {
    if ts != [] {
      var q := Apply(p, ts[0]);
      ApplyPreservesWellFormed(p, ts[0]);
      if ts[0].rule == Label {
        ApplyLabelOnlyPatchesPlaceholders(p, ts[0]);
      } else {
        ApplyAppends(p, ts[0]);
        assert q.inst[s] == q.inst[..|p.inst|][s];
      }
      assert forall i :: 0 <= i < |ts| - 1 ==> ts[1..][i] == ts[i + 1];
      ApplyAllKeepsResolved(q, ts[1..], s);
    }
  }

  /** The definition `[name]` at the head of `ts` resolves a slot pending
      for `name` to the current length of the array, for good. */
  lemma LabelResolvesPending(q: Program, ts: seq<Token>, name: string, slot: nat)
    requires WellFormed(q) && AllLexemes(ts) && |ts| > 0 && Defines(ts[0], name)
    requires PendingSlot(q, name, slot)
    ensures var inst := ApplyAll(q, ts).inst;
            0 < slot < |inst| && inst[slot - 1] == Opcode(Literal) && inst[slot] == |q.inst|
  {
    LabelDefinition(q, name);
    ApplyPreservesWellFormed(q, ts[0]);
    var r := Apply(q, ts[0]);
    assert r == ApplyLabel(q, name);
    assert 0 < slot < |q.inst| && q.inst[slot - 1] == Opcode(Literal);
    assert r.inst[slot] == |q.inst| && r.inst[slot - 1] == Opcode(Literal);
    assert forall k :: 0 <= k < |ts| - 1 ==> ts[1..][k] == ts[k + 1];
    ApplyAllKeepsResolved(r, ts[1..], slot);
    ApplyAllKeepsResolved(r, ts[1..], slot - 1);
  }

  /** The first step of `ApplyAll` on a non-empty token sequence. */
  lemma ApplyAllCons(p: Program, ts: seq<Token>)
    requires WellFormed(p) && AllLexemes(ts) && ts != []
    ensures Lexeme(ts[0]) && WellFormed(Apply(p, ts[0])) && AllLexemes(ts[1..])
    ensures ApplyAll(p, ts) == ApplyAll(Apply(p, ts[0]), ts[1..])
    ensures |Apply(p, ts[0]).inst| == |p.inst| + Width(ts[0])
  {
    ApplyPreservesWellFormed(p, ts[0]);
    ApplyWidth(p, ts[0]);
    assert forall k :: 0 <= k < |ts| - 1 ==> ts[1..][k] == ts[k + 1];
  }

  /** The width of the first `n` tokens is the width of the first one plus
      that of the next `n - 1`. */
  lemma WidthsOfPrefix(ts: seq<Token>, n: nat)
    requires 0 < n <= |ts|
    ensures Widths(ts[..n]) == Width(ts[0]) + Widths(ts[1..][..n - 1])
  {
    assert ts[..n][1..] == ts[1..][..n - 1];
  }

  /** A slot pending for `name` receives the offset of the first later
      definition `[name]`, at token `j`: the width of the code before it. */
  lemma {:induction false} PendingUntilDefinition(p: Program, ts: seq<Token>, name: string, s: nat, j: nat)
    requires WellFormed(p) && AllLexemes(ts) && PendingSlot(p, name, s)
    requires j < |ts| && Defines(ts[j], name)
    requires forall k :: 0 <= k < j ==> !Defines(ts[k], name)
    ensures var inst := ApplyAll(p, ts).inst;
            0 < s < |inst| && inst[s - 1] == Opcode(Literal) && inst[s] == |p.inst| + Widths(ts[..j])
    decreases j
  {
    if j == 0 {
      LabelResolvesPending(p, ts, name, s);
      assert ts[..0] == [];
    } else {
      ApplyAllCons(p, ts);
      var q := Apply(p, ts[0]);
      assert PendingSlot(q, name, s) by {
        ApplyKeepsPending(p, ts[0], name);
      }
      assert forall k :: 0 <= k < j - 1 ==> !Defines(ts[1..][k], name);
      PendingUntilDefinition(q, ts[1..], name, s, j - 1);
      WidthsOfPrefix(ts, j);
    }
  }

  /** A reference `(name)` at the head of a token sequence whose first
      definition of `name` is token `j` ends up holding the width of the code
      before token `j`. */
  lemma ReferenceThenDefinition(p: Program, ts: seq<Token>, name: string, j: nat)
    requires WellFormed(p) && AllLexemes(ts) && Undefined(p, name)
    requires 0 < j < |ts| && RefersTo(ts[0], name) && Defines(ts[j], name)
    requires forall k :: 0 <= k < j ==> !Defines(ts[k], name)
    ensures var inst := ApplyAll(p, ts).inst;
            |p.inst| + 1 < |inst| && inst[|p.inst|] == Opcode(Literal) && inst[|p.inst| + 1] == |p.inst| + Widths(ts[..j])
  {
    var q := ApplyJump(p, name);
    var rest := ts[1..];
    assert WellFormed(q) && AllLexemes(rest) && ApplyAll(p, ts) == ApplyAll(q, rest) by {
      ApplyAllCons(p, ts);
    }
    assert q.inst == p.inst + [Opcode(Literal), Placeholder] && PendingSlot(q, name, |p.inst| + 1) by {
      JumpReference(p, name);
    }
    assert j - 1 < |rest| && Defines(rest[j - 1], name) && forall k :: 0 <= k < j - 1 ==> !Defines(rest[k], name);
    PendingUntilDefinition(q, rest, name, |p.inst| + 1, j - 1);
    assert Widths(ts[..j]) == 2 + Widths(rest[..j - 1]) by {
      WidthsOfPrefix(ts, j);
    }
  }

  /** In a token sequence, a reference `(name)` at token `i` whose label is
      first defined at a later token `j` ends up holding that label's offset,
      the width of the code before token `j`. */
  lemma {:induction false} ForwardReferenceResolvedIn(p: Program, ts: seq<Token>, name: string, i: nat, j: nat)
    requires WellFormed(p) && AllLexemes(ts) && Undefined(p, name)
    requires i < j < |ts| && RefersTo(ts[i], name) && Defines(ts[j], name)
    requires forall k :: 0 <= k < j ==> !Defines(ts[k], name)
    ensures var inst := ApplyAll(p, ts).inst;
            var slot := |p.inst| + Widths(ts[..i]) + 1;
            slot < |inst| && inst[slot - 1] == Opcode(Literal) && inst[slot] == |p.inst| + Widths(ts[..j])
    decreases i
  {
    if i == 0 {
      ReferenceThenDefinition(p, ts, name, j);
      assert Widths(ts[..0]) == 0;
    } else {
      ApplyAllCons(p, ts);
      var q := Apply(p, ts[0]);
      assert Undefined(q, name) by {
        ApplyKeepsPending(p, ts[0], name);
      }
      assert forall k :: 0 <= k < j - 1 ==> !Defines(ts[1..][k], name);
      ForwardReferenceResolvedIn(q, ts[1..], name, i - 1, j - 1);
      WidthsOfPrefix(ts, i);
      WidthsOfPrefix(ts, j);
    }
  }

  /** A forward jump: a reference `(name)` at token `i` whose label `[name]`
      is first defined at a later token `j` compiles to a LITERAL whose
      operand is the offset of that label, the width of the code before it. */
  lemma ForwardReferenceResolved(src: string, name: string, i: nat, j: nat)
    requires CompileSpec(src).Ok?
    requires i < j < |Lex(src).0|
    requires RefersTo(Lex(src).0[i], name) && Defines(Lex(src).0[j], name)
    requires forall k :: 0 <= k < j ==> !Defines(Lex(src).0[k], name)
    ensures var inst := CompileSpec(src).program.inst;
            var slot := Widths(Lex(src).0[..i]) + 1;
            slot < |inst| && inst[slot - 1] == Opcode(Literal) && inst[slot] == Widths(Lex(src).0[..j])
  {
    CompiledFromTokens(src);
    ForwardReferenceResolvedIn(EmptyProgram, Lex(src).0, name, i, j);
  }
}
