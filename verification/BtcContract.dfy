/**
 The Bitcoin binder: it builds the contract script and the two input scripts byte by byte,
 recovers the secret from a spending input, and times its refund transaction.
 */
module BtcContract {
  import opened Common
  import opened Script
  import opened HtlcScript
  import ScriptNum

  // ---------------------------------------------------------------- assembling

  /** An instruction the builder can emit, which the parser reads back as itself. */
  predicate Canonical(instr: Instr) {
    match instr
    case Push(data) => |data| <= MaxElement && DataInstr(data) == instr
    case Op(code) => !IsDataPush(code)
  }

  function InstrBytes(instr: Instr): Bytes
    requires Canonical(instr)
  {
    match instr
    case Push(data) => DataBytes(data)
    case Op(code) => [code]
  }

  predicate AllCanonical(program: seq<Instr>) {
    forall i | 0 <= i < |program| :: Canonical(program[i])
  }

  function Concat(chunks: seq<Bytes>): Bytes {
    if chunks == [] then [] else Concat(chunks[..|chunks| - 1]) + chunks[|chunks| - 1]
  }

  lemma {:induction false} ConcatFront(chunks: seq<Bytes>)
    requires chunks != []
    ensures Concat(chunks) == chunks[0] + Concat(chunks[1..])
    decreases |chunks|
  {
    var n := |chunks| - 1;
    if n > 0 {
      ConcatFront(chunks[..n]);
      assert chunks[..n][1..] == chunks[1..n] == chunks[1..][..n - 1];
    }
  }

  function Chunks(program: seq<Instr>): seq<Bytes>
    requires AllCanonical(program)
  {
    seq(|program|, i requires 0 <= i < |program| => InstrBytes(program[i]))
  }

  function Assemble(program: seq<Instr>): Bytes
    requires AllCanonical(program)
  {
    Concat(Chunks(program))
  }

  lemma AssembleSnoc(program: seq<Instr>, instr: Instr)
    requires AllCanonical(program) && Canonical(instr)
    ensures Assemble(program + [instr]) == Assemble(program) + InstrBytes(instr)
  {
    var chunks := Chunks(program + [instr]);
    assert chunks[..|program|] == Chunks(program);
    assert chunks[|program|] == InstrBytes(instr);
  }

  lemma AssembleFront(program: seq<Instr>)
    requires AllCanonical(program) && program != []
    ensures AllCanonical(program[1..])
    ensures Assemble(program) == InstrBytes(program[0]) + Assemble(program[1..])
  {
    assert Chunks(program)[1..] == Chunks(program[1..]);
    ConcatFront(Chunks(program));
  }

  lemma ParseInstr(instr: Instr, rest: Bytes)
    requires Canonical(instr)
    ensures Parse(InstrBytes(instr) + rest) == Prefixed(instr, Parse(rest))
  {
    match instr
    case Push(data) => ParseData(data, rest);
    case Op(code) => ParseOp(code, rest);
  }

  /** Parsing undoes assembling: every program the builder can write is read back unchanged. */
  lemma {:induction false} ParseAssemble(program: seq<Instr>)
    requires AllCanonical(program)
    ensures Parse(Assemble(program)) == Some(program)
    decreases |program|
  {
    if program != [] {
      ParseAssemble(program[1..]);
      AssembleFront(program);
      ParseInstr(program[0], Assemble(program[1..]));
      assert program == [program[0]] + program[1..];
    }
  }

  lemma DataInstrBytes(data: Bytes)
    requires |data| <= MaxElement
    ensures Canonical(DataInstr(data)) && InstrBytes(DataInstr(data)) == DataBytes(data)
  {
  }

  lemma IntInstrBytes(n: int)
    requires |ScriptNum.Encode(n)| <= MaxElement
    ensures Canonical(IntInstr(n)) && InstrBytes(IntInstr(n)) == IntBytes(n)
  {
  }

  // ---------------------------------------------------------------- the three scripts

  lemma ProgramCanonical(t: Terms)
    requires WellFormed(t)
    ensures AllCanonical(Program(t))
  {
    ScriptNum.EncodeIsShort(t.lockTime);
    IntInstrBytes(t.lockTime);
  }

  function ContractScript(t: Terms): Bytes
    requires WellFormed(t)
  {
    ProgramCanonical(t);
    Assemble(Program(t))
  }

  predicate Small(data: Bytes) {
    |data| <= MaxElement
  }

  /** The builder holds the bytes of `program`, or has failed, as `ok` says. */
  ghost predicate Holds(b: ScriptBuilder, program: seq<Instr>, ok: bool)
    reads b
  {
    b.failed == !ok && (ok ==> AllCanonical(program) && b.script == Assemble(program))
  }

  method AddOpTo(b: ScriptBuilder, code: byte, ghost program: seq<Instr>, ghost k: nat)
    requires k < |program| && program[k] == Op(code)
    requires Holds(b, program[..k], !b.failed) && !IsDataPush(code)
    modifies b
    ensures Holds(b, program[..k + 1], !old(b.failed))
  {
    assert program[..k + 1] == program[..k] + [program[k]];
    b.AddOp(code);
    if !b.failed {
      AssembleSnoc(program[..k], program[k]);
    }
  }

  method AddDataTo(b: ScriptBuilder, data: Bytes, ghost program: seq<Instr>, ghost k: nat)
    requires k < |program| && program[k] == DataInstr(data)
    requires Holds(b, program[..k], !b.failed)
    modifies b
    ensures Holds(b, program[..k + 1], !old(b.failed) && Small(data))
  {
    assert program[..k + 1] == program[..k] + [program[k]];
    b.AddData(data);
    if !b.failed {
      DataInstrBytes(data);
      AssembleSnoc(program[..k], program[k]);
    }
  }

  method AddIntTo(b: ScriptBuilder, n: int, ghost program: seq<Instr>, ghost k: nat)
    requires k < |program| && program[k] == IntInstr(n)
    requires Holds(b, program[..k], !b.failed) && -0x8000_0000_0000_0000 <= n < 0x8000_0000_0000_0000
    modifies b
    ensures Holds(b, program[..k + 1], !old(b.failed))
  {
    assert program[..k + 1] == program[..k] + [program[k]];
    b.AddInt64(n);
    if !b.failed {
      IntInstrBytes(n);
      AssembleSnoc(program[..k], program[k]);
    }
  }

  /** The contract program, instruction by instruction. */
  lemma FlatProgram(t: Terms)
    ensures var p := Program(t);
            && |p| == 20
            && p[0] == Op(OP_IF) && p[1] == Op(OP_SIZE) && p[2] == Push([32]) && p[3] == Op(OP_EQUALVERIFY)
            && p[4] == Op(OP_SHA256) && p[5] == Push(t.secretHash) && p[6] == Op(OP_EQUALVERIFY)
            && p[7] == Op(OP_DUP) && p[8] == Op(OP_HASH160) && p[9] == Push(t.pkhThem)
            && p[10] == Op(OP_ELSE) && p[11] == IntInstr(t.lockTime) && p[12] == Op(OP_CHECKLOCKTIMEVERIFY)
            && p[13] == Op(OP_DROP) && p[14] == Op(OP_DUP) && p[15] == Op(OP_HASH160) && p[16] == Push(t.pkhMe)
            && p[17] == Op(OP_ENDIF) && p[18] == Op(OP_EQUALVERIFY) && p[19] == Op(OP_CHECKSIG)
  {
  }

  method AddClaimSide(b: ScriptBuilder, t: Terms, ghost p: seq<Instr>)
    requires WellFormed(t) && p == Program(t) && Holds(b, p[..0], true)
    modifies b
    ensures Holds(b, p[..10], true)
  {
    FlatProgram(t);
    AddOpTo(b, OP_IF, p, 0);
    AddOpTo(b, OP_SIZE, p, 1);
    AddDataTo(b, [32], p, 2);
    AddOpTo(b, OP_EQUALVERIFY, p, 3);
    AddOpTo(b, OP_SHA256, p, 4);
    AddDataTo(b, t.secretHash, p, 5);
    AddOpTo(b, OP_EQUALVERIFY, p, 6);
    AddOpTo(b, OP_DUP, p, 7);
    AddOpTo(b, OP_HASH160, p, 8);
    AddDataTo(b, t.pkhThem, p, 9);
  }

  method AddRefundSide(b: ScriptBuilder, t: Terms, ghost p: seq<Instr>)
    requires WellFormed(t) && p == Program(t) && Holds(b, p[..10], true)
    modifies b
    ensures Holds(b, p[..20], true)
  {
    FlatProgram(t);
    AddOpTo(b, OP_ELSE, p, 10);
    AddIntTo(b, t.lockTime, p, 11);
    AddOpTo(b, OP_CHECKLOCKTIMEVERIFY, p, 12);
    AddOpTo(b, OP_DROP, p, 13);
    AddOpTo(b, OP_DUP, p, 14);
    AddOpTo(b, OP_HASH160, p, 15);
    AddDataTo(b, t.pkhMe, p, 16);
    AddOpTo(b, OP_ENDIF, p, 17);
    AddOpTo(b, OP_EQUALVERIFY, p, 18);
    AddOpTo(b, OP_CHECKSIG, p, 19);
  }

  method NewInitiateScript(pkhMe: Bytes, pkhThem: Bytes, lockTime: int, secretHash: Bytes)
    returns (script: Bytes)
    requires WellFormed(Terms(pkhMe, pkhThem, lockTime, secretHash))
    ensures script == ContractScript(Terms(pkhMe, pkhThem, lockTime, secretHash))
  {
    var t := Terms(pkhMe, pkhThem, lockTime, secretHash);
    ghost var p := Program(t);
    var b := new ScriptBuilder();
    assert p[..0] == [];
    AddClaimSide(b, t, p);
    AddRefundSide(b, t, p);
    FlatProgram(t);
    assert p[..20] == p;
    script := b.script;
  }

  function RedeemProgram(script: Bytes, sig: Bytes, pubkey: Bytes, secret: Bytes): seq<Instr> {
    [DataInstr(sig), DataInstr(pubkey), DataInstr(secret), Op(OP_1), DataInstr(script)]
  }

  function RefundProgram(script: Bytes, sig: Bytes, pubkey: Bytes): seq<Instr> {
    [DataInstr(sig), DataInstr(pubkey), Op(OP_0), DataInstr(script)]
  }

  lemma InputsCanonical(script: Bytes, sig: Bytes, pubkey: Bytes, secret: Bytes)
    requires Small(script) && Small(sig) && Small(pubkey) && Small(secret)
    ensures AllCanonical(RedeemProgram(script, sig, pubkey, secret))
    ensures AllCanonical(RefundProgram(script, sig, pubkey))
  {
  }

  function RedeemInput(script: Bytes, sig: Bytes, pubkey: Bytes, secret: Bytes): Bytes
    requires Small(script) && Small(sig) && Small(pubkey) && Small(secret)
  {
    InputsCanonical(script, sig, pubkey, secret);
    Assemble(RedeemProgram(script, sig, pubkey, secret))
  }

  function RefundInput(script: Bytes, sig: Bytes, pubkey: Bytes): Bytes
    requires Small(script) && Small(sig) && Small(pubkey)
  {
    InputsCanonical(script, sig, pubkey, []);
    Assemble(RefundProgram(script, sig, pubkey))
  }

  /** An element above the size limit is the only way building the input fails. */
  method NewRedeemScript(script: Bytes, sig: Bytes, pubkey: Bytes, secret: Bytes) returns (r: Option<Bytes>)
    requires |secret| == 32
    ensures r.Some? <==> Small(script) && Small(sig) && Small(pubkey)
    ensures r.Some? ==> r.value == RedeemInput(script, sig, pubkey, secret)
  {
    var b := new ScriptBuilder();
    ghost var c := RedeemProgram(script, sig, pubkey, secret);
    assert c[..0] == [];
    AddDataTo(b, sig, c, 0);
    AddDataTo(b, pubkey, c, 1);
    AddDataTo(b, secret, c, 2);
    AddIntTo(b, 1, c, 3);
    AddDataTo(b, script, c, 4);
    assert c[..5] == c;
    return if b.failed then None else Some(b.script);
  }

  method NewRefundScript(script: Bytes, sig: Bytes, pubkey: Bytes) returns (r: Option<Bytes>)
    ensures r.Some? <==> Small(script) && Small(sig) && Small(pubkey)
    ensures r.Some? ==> r.value == RefundInput(script, sig, pubkey)
  {
    var b := new ScriptBuilder();
    ghost var c := RefundProgram(script, sig, pubkey);
    assert c[..0] == [];
    AddDataTo(b, sig, c, 0);
    AddDataTo(b, pubkey, c, 1);
    AddIntTo(b, 0, c, 2);
    AddDataTo(b, script, c, 3);
    assert c[..4] == c;
    return if b.failed then None else Some(b.script);
  }
}
