/**
 Bitcoin script: the builder's byte encoding, the parser, and an interpreter for the
 opcodes an HTLC uses, with BIP 65 lock times and BIP 16 pay-to-script-hash spending.
 Stacks grow to the right. Hashing and signature checking are parameters of the interpreter.
 */
module Script {
  import opened Common
  import ScriptNum

  const OP_0: byte := 0x00
  const OP_PUSHDATA1: byte := 0x4c
  const OP_PUSHDATA2: byte := 0x4d
  const OP_PUSHDATA4: byte := 0x4e
  const OP_1NEGATE: byte := 0x4f
  const OP_1: byte := 0x51
  const OP_16: byte := 0x60
  const OP_IF: byte := 0x63
  const OP_ELSE: byte := 0x67
  const OP_ENDIF: byte := 0x68
  const OP_DROP: byte := 0x75
  const OP_DUP: byte := 0x76
  const OP_SIZE: byte := 0x82
  const OP_EQUALVERIFY: byte := 0x88
  const OP_SHA256: byte := 0xa8
  const OP_HASH160: byte := 0xa9
  const OP_CHECKSIG: byte := 0xac
  const OP_CHECKLOCKTIMEVERIFY: byte := 0xb1

  const MaxElement := 520

  // ---------------------------------------------------------------- parsing

  datatype Instr = Push(data: Bytes) | Op(code: byte)

  /** How many bytes a push opcode uses for its length, and the length they spell. */
  function PushLength(script: Bytes): Option<(nat, nat)>
    requires script != []
  {
    var code := script[0];
    if 1 <= code < OP_PUSHDATA1 then Some((1, code as nat))
    else
      var width := if code == OP_PUSHDATA1 then 1 else if code == OP_PUSHDATA2 then 2 else 4;
      if |script| < 1 + width then None else Some((1 + width, ScriptNum.LeValue(script[1..1 + width])))
  }

  predicate IsDataPush(code: byte) {
    1 <= code <= OP_PUSHDATA4
  }

  function Parse(script: Bytes): Option<seq<Instr>>
    decreases |script|
  {
    if script == [] then Some([])
    else if !IsDataPush(script[0]) then
      match Parse(script[1..])
      case None => None
      case Some(rest) => Some([Op(script[0])] + rest)
    else
      match PushLength(script)
      case None => None
      case Some((head, length)) =>
        if |script| < head + length then None
        else
          match Parse(script[head + length..])
          case None => None
          case Some(rest) => Some([Push(script[head..head + length])] + rest)
  }

  // ---------------------------------------------------------------- building

  /** The shortest push of `data`, as the script builder writes it. */
  function DataBytes(data: Bytes): Bytes
    requires |data| <= MaxElement
  {
    if data == [] || data == [0] then [OP_0]
    else if |data| == 1 && data[0] <= 16 then [OP_1 - 1 + data[0]]
    else if data == [0x81] then [OP_1NEGATE]
    else if |data| < OP_PUSHDATA1 as int then [|data| as byte] + data
    else if |data| <= 0xff then [OP_PUSHDATA1, |data| as byte] + data
    else [OP_PUSHDATA2, (|data| % 256) as byte, (|data| / 256) as byte] + data
  }

  function IntBytes(n: int): Bytes
    requires |ScriptNum.Encode(n)| <= MaxElement
  {
    if n == 0 then [OP_0]
    else if n == -1 || 1 <= n <= 16 then [(OP_1 as int - 1 + n) as byte]
    else DataBytes(ScriptNum.Encode(n))
  }

  class ScriptBuilder {
    var script: Bytes
    var failed: bool

    constructor ()
      ensures script == [] && !failed
    {
      script, failed := [], false;
    }

    method AddOp(code: byte)
      modifies this
      ensures failed == old(failed)
      ensures script == if failed then old(script) else old(script) + [code]
    {
      if !failed {
        script := script + [code];
      }
    }

    /** An element above the limit makes the whole script fail. */
    method AddData(data: Bytes)
      modifies this
      ensures failed == (old(failed) || |data| > MaxElement)
      ensures script == if failed then old(script) else old(script) + DataBytes(data)
    {
      if |data| > MaxElement {
        failed := true;
      } else if !failed {
        script := script + DataBytes(data);
      }
    }

    method AddInt64(n: int)
      requires -0x8000_0000_0000_0000 <= n < 0x8000_0000_0000_0000
      modifies this
      ensures |ScriptNum.Encode(n)| <= 9
      ensures failed == old(failed)
      ensures script == if failed then old(script) else old(script) + IntBytes(n)
    {
      ScriptNum.EncodeIsShort(n);
      if failed {
        return;
      }
      if n == 0 {
        script := script + [OP_0];
      } else if n == -1 || 1 <= n <= 16 {
        script := script + [(OP_1 as int - 1 + n) as byte];
      } else {
        AddData(ScriptNum.Encode(n));
      }
    }
  }

  // ---------------------------------------------------------------- interpreting

  datatype Cond = CondTrue | CondFalse | CondSkip

  datatype Machine = Machine(stack: seq<Bytes>, conds: seq<Cond>)

  /** The transaction and the primitives a script is checked against. */
  datatype Context = Context(
    sha256: Bytes -> Bytes, hash160: Bytes -> Bytes, checkSig: (Bytes, Bytes) -> bool,
    lockTime: int, sequence: int)

  const LockTimeThreshold := 500000000
  const MaxSequence := 0xffff_ffff

  /** False is any string of zero bytes, the last one possibly carrying the sign. */
  predicate AsBool(b: Bytes) {
    exists i | 0 <= i < |b| :: b[i] != 0 && !(i == |b| - 1 && b[i] == 0x80)
  }

  lemma {:induction false} LeValueZero(b: Bytes)
    ensures ScriptNum.LeValue(b) == 0 <==> forall i | 0 <= i < |b| :: b[i] == 0
  {
    if b != [] {
      LeValueZero(b[1..]);
      if forall i | 0 <= i < |b[1..]| :: b[1..][i] == 0 {
        assert forall i | 0 < i < |b| :: b[i] == b[1..][i - 1];
      } else {
        var i :| 0 <= i < |b[1..]| && b[1..][i] != 0;
        assert b[i + 1] != 0;
      }
    }
  }

  /** A string is false exactly when the number it stands for is zero, of either sign. */
  lemma AsBoolExact(b: Bytes)
    ensures AsBool(b) <==> ScriptNum.Decode(b) != 0
  {
    if b != [] {
      var k := |b| - 1;
      var magnitude := if b[k] >= 128 then b[..k] + [b[k] - 128] else b;
      LeValueZero(magnitude);
      if exists i | 0 <= i < |b| :: magnitude[i] != 0 {
        var i :| 0 <= i < |b| && magnitude[i] != 0;
        assert b[i] != 0 && !(i == k && b[i] == 0x80);
      } else {
        forall i | 0 <= i < |b| ensures b[i] == 0 || (i == k && b[i] == 0x80) {
          assert magnitude[i] == 0;
        }
      }
    }
  }

  predicate Executing(m: Machine) {
    m.conds == [] || m.conds[|m.conds| - 1].CondTrue?
  }

  /** BIP 65: same kind of lock, already reached by the transaction, and an input that is not final. */
  predicate LockTimeReached(ctx: Context, lock: int) {
    && 0 <= lock <= ctx.lockTime
    && (lock < LockTimeThreshold <==> ctx.lockTime < LockTimeThreshold)
    && ctx.sequence != MaxSequence
  }

  function Peek(s: seq<Bytes>, depth: nat): Bytes
    requires depth < |s|
  {
    s[|s| - 1 - depth]
  }

  function Pop(s: seq<Bytes>, count: nat): seq<Bytes>
    requires count <= |s|
  {
    s[..|s| - count]
  }

  /** The value a constant opcode pushes. */
  function ConstantOf(code: byte): Option<Bytes> {
    if code == OP_0 then Some([])
    else if code == OP_1NEGATE then Some([0x81])
    else if OP_1 <= code <= OP_16 then Some([code - OP_1 + 1])
    else None
  }

  function ExecStack(ctx: Context, code: byte, s: seq<Bytes>): Option<seq<Bytes>> {
    if ConstantOf(code).Some? then Some(s + [ConstantOf(code).value])
    else if code == OP_DUP then if |s| < 1 then None else Some(s + [Peek(s, 0)])
    else if code == OP_DROP then if |s| < 1 then None else Some(Pop(s, 1))
    else if code == OP_SIZE then if |s| < 1 then None else Some(s + [ScriptNum.Encode(|Peek(s, 0)|)])
    else if code == OP_SHA256 then if |s| < 1 then None else Some(Pop(s, 1) + [ctx.sha256(Peek(s, 0))])
    else if code == OP_HASH160 then if |s| < 1 then None else Some(Pop(s, 1) + [ctx.hash160(Peek(s, 0))])
    else if code == OP_EQUALVERIFY then
      if |s| < 2 || Peek(s, 0) != Peek(s, 1) then None else Some(Pop(s, 2))
    else if code == OP_CHECKSIG then
      if |s| < 2 then None
      else Some(Pop(s, 2) + [if ctx.checkSig(Peek(s, 1), Peek(s, 0)) then [1] else []])
    else if code == OP_CHECKLOCKTIMEVERIFY then
      if |s| < 1 || |Peek(s, 0)| > 5 || !LockTimeReached(ctx, ScriptNum.Decode(Peek(s, 0))) then None else Some(s)
    else None
  }

  function ExecOp(ctx: Context, code: byte, m: Machine): Option<Machine> {
    var top := |m.conds| - 1;
    if code == OP_IF then
      if !Executing(m) then Some(m.(conds := m.conds + [CondSkip]))
      else if |m.stack| < 1 then None
      else Some(Machine(Pop(m.stack, 1), m.conds + [if AsBool(Peek(m.stack, 0)) then CondTrue else CondFalse]))
    else if code == OP_ELSE then
      if m.conds == [] then None
      else Some(m.(conds := m.conds[top := match m.conds[top]
                                           case CondTrue => CondFalse
                                           case CondFalse => CondTrue
                                           case CondSkip => CondSkip]))
    else if code == OP_ENDIF then
      if m.conds == [] then None else Some(m.(conds := m.conds[..top]))
    else if !Executing(m) then Some(m)
    else
      match ExecStack(ctx, code, m.stack)
      case None => None
      case Some(s) => Some(m.(stack := s))
  }

  function Exec(ctx: Context, instr: Instr, m: Machine): Option<Machine> {
    match instr
    case Push(data) =>
      if |data| > MaxElement then None
      else if Executing(m) then Some(m.(stack := m.stack + [data]))
      else Some(m)
    case Op(code) => ExecOp(ctx, code, m)
  }

  function Run(ctx: Context, program: seq<Instr>, m: Machine): Option<Machine>
    decreases |program|
  {
    if program == [] then Some(m)
    else
      match Exec(ctx, program[0], m)
      case None => None
      case Some(m') => Run(ctx, program[1..], m')
  }

  /** The script leaves no open branch and a true value on top. */
  predicate Accepts(ctx: Context, program: seq<Instr>, stack: seq<Bytes>) {
    match Run(ctx, program, Machine(stack, []))
    case None => false
    case Some(m) => m.conds == [] && m.stack != [] && AsBool(Peek(m.stack, 0))
  }

  // ---------------------------------------------------------------- pay to script hash

  predicate PushOnly(program: seq<Instr>) {
    forall i | 0 <= i < |program| :: program[i].Push? || program[i].code <= OP_16
  }

  /**
   BIP 16: the input script only pushes, its last push is a script with the expected
   hash, and that script accepts the other pushes.
   */
  predicate SpendsScriptHash(ctx: Context, input: Bytes, scriptHash: Bytes) {
    match Parse(input)
    case None => false
    case Some(pushes) =>
      PushOnly(pushes) &&
      match Run(ctx, pushes, Machine([], []))
      case None => false
      case Some(m) =>
        && m.stack != []
        && ctx.hash160(Peek(m.stack, 0)) == scriptHash
        && Parse(Peek(m.stack, 0)).Some?
        && Accepts(ctx, Parse(Peek(m.stack, 0)).value, Pop(m.stack, 1))
  }

  /** The data pushes of a script, as the library lists them: small constants are not data. */
  function PushedData(program: seq<Instr>): seq<Bytes> {
    if program == [] then []
    else
      var head := match program[0]
        case Push(data) => [data]
        case Op(code) => if code == OP_0 then [[]] else [];
      head + PushedData(program[1..])
  }
}
