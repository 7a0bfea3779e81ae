/** The contract script and its two inputs, byte for byte as they are seen on the chain. */
module ContractBytes {
  import opened Common
  import opened Script
  import opened HtlcScript
  import opened BtcContract
  import ScriptNum
  import Spending

  lemma AssembleAppend(p: seq<Instr>, q: seq<Instr>)
    requires AllCanonical(p) && AllCanonical(q)
    ensures AllCanonical(p + q) && Assemble(p + q) == Assemble(p) + Assemble(q)
  {
    assert Chunks(p + q) == Chunks(p) + Chunks(q);
    Spending.ConcatAppend(Chunks(p), Chunks(q));
  }

  lemma AssembleOne(a: Instr)
    requires Canonical(a)
    ensures AllCanonical([a]) && Assemble([a]) == InstrBytes(a)
  {
    AssembleFront([a]);
    assert [a][1..] == [] && Assemble([]) == [];
    assert InstrBytes(a) + [] == InstrBytes(a);
  }

  lemma AssembleThree(a: Instr, b: Instr, c: Instr)
    requires Canonical(a) && Canonical(b) && Canonical(c)
    ensures AllCanonical([a, b, c]) && Assemble([a, b, c]) == InstrBytes(a) + InstrBytes(b) + InstrBytes(c)
  {
    AssembleOne(a);
    AssembleSnoc([a], b);
    AssembleSnoc([a, b], c);
    assert [a] + [b] == [a, b] && [a, b] + [c] == [a, b, c];
  }

  /** A push of two bytes or more: its length in one byte, or after an opcode that says how long the length is. */
  lemma PushBytes(data: Bytes)
    requires 2 <= |data| <= 520
    ensures DataBytes(data) ==
            if |data| <= 75 then [|data| as byte] + data
            else if |data| <= 255 then [0x4c, |data| as byte] + data
            else [0x4d, (|data| % 256) as byte, (|data| / 256) as byte] + data
  {
  }

  lemma SizeBytes()
    ensures var size := [Op(OP_SIZE), Push([32]), Op(OP_EQUALVERIFY)];
            AllCanonical(size) && Assemble(size) == [0x82, 0x01, 0x20, 0x88]
  {
    AssembleThree(Op(OP_SIZE), Push([32]), Op(OP_EQUALVERIFY));
    assert InstrBytes(Push([32])) == [0x01, 0x20];
    assert [0x82 as byte] + [0x01, 0x20] + [0x88] == [0x82, 0x01, 0x20, 0x88];
  }

  lemma HashBytes(hash: Bytes)
    requires |hash| == 32
    ensures var check := [Op(OP_SHA256), Push(hash), Op(OP_EQUALVERIFY)];
            AllCanonical(check) && Assemble(check) == [0xa8, 0x20] + hash + [0x88]
  {
    AssembleThree(Op(OP_SHA256), Push(hash), Op(OP_EQUALVERIFY));
    assert InstrBytes(Push(hash)) == [0x20] + hash;
    assert [0xa8 as byte] + ([0x20] + hash) == [0xa8, 0x20] + hash;
  }

  lemma KeyBytes(pkh: Bytes)
    requires |pkh| == 20
    ensures var key := [Op(OP_DUP), Op(OP_HASH160), Push(pkh)];
            AllCanonical(key) && Assemble(key) == [0x76, 0xa9, 0x14] + pkh
  {
    AssembleThree(Op(OP_DUP), Op(OP_HASH160), Push(pkh));
    assert InstrBytes(Push(pkh)) == [0x14] + pkh;
    assert [0x76 as byte] + [0xa9] + ([0x14] + pkh) == [0x76, 0xa9, 0x14] + pkh;
  }

  lemma LockCheckBytes(n: int)
    requires |ScriptNum.Encode(n)| <= 9
    ensures var lock := [IntInstr(n), Op(OP_CHECKLOCKTIMEVERIFY), Op(OP_DROP)];
            AllCanonical(lock) && Assemble(lock) == IntBytes(n) + [0xb1, 0x75]
  {
    IntInstrBytes(n);
    AssembleThree(IntInstr(n), Op(OP_CHECKLOCKTIMEVERIFY), Op(OP_DROP));
    assert IntBytes(n) + [0xb1] + [0x75] == IntBytes(n) + [0xb1, 0x75];
  }

  lemma ClaimBranchBytes(t: Terms)
    requires WellFormed(t)
    ensures AllCanonical(ClaimBranch(t))
    ensures Assemble(ClaimBranch(t)) ==
            [0x82, 0x01, 0x20, 0x88] + ([0xa8, 0x20] + t.secretHash + [0x88]) + ([0x76, 0xa9, 0x14] + t.pkhThem)
  {
    var size := [Op(OP_SIZE), Push([32]), Op(OP_EQUALVERIFY)];
    var hash := [Op(OP_SHA256), Push(t.secretHash), Op(OP_EQUALVERIFY)];
    var key := [Op(OP_DUP), Op(OP_HASH160), Push(t.pkhThem)];
    assert ClaimBranch(t) == size + hash + key;
    SizeBytes();
    HashBytes(t.secretHash);
    KeyBytes(t.pkhThem);
    AssembleAppend(size, hash);
    AssembleAppend(size + hash, key);
  }

  lemma RefundBranchBytes(t: Terms)
    requires WellFormed(t)
    ensures AllCanonical(RefundBranch(t)) && |ScriptNum.Encode(t.lockTime)| <= 9
    ensures Assemble(RefundBranch(t)) == (IntBytes(t.lockTime) + [0xb1, 0x75]) + ([0x76, 0xa9, 0x14] + t.pkhMe)
  {
    ScriptNum.EncodeIsShort(t.lockTime);
    var lock := [IntInstr(t.lockTime), Op(OP_CHECKLOCKTIMEVERIFY), Op(OP_DROP)];
    var key := [Op(OP_DUP), Op(OP_HASH160), Push(t.pkhMe)];
    assert RefundBranch(t) == lock + key;
    LockCheckBytes(t.lockTime);
    KeyBytes(t.pkhMe);
    AssembleAppend(lock, key);
  }

  lemma TailBytes()
    ensures AllCanonical(Tail) && Assemble(Tail) == [0x68, 0x88, 0xac]
  {
    AssembleThree(Tail[0], Tail[1], Tail[2]);
    assert Tail == [Tail[0], Tail[1], Tail[2]];
  }

  /** A lock time between 1970-07-14 and 2038-01-19 takes a length byte and four bytes, the lowest first. */
  lemma LockBytes(n: int)
    requires 0x100_0000 <= n < 0x8000_0000
    ensures |ScriptNum.Encode(n)| == 4
    ensures IntBytes(n) == [4, (n % 256) as byte, (n / 256 % 256) as byte, (n / 65536 % 256) as byte,
                            (n / 16777216) as byte]
  {
    var x, y, z: nat := n / 256, n / 65536, n / 16777216;
    assert ScriptNum.LeBytes(z) == [z as byte] by {
      assert ScriptNum.LeBytes(0) == [];
      assert [z as byte] + [] == [z as byte];
    }
    assert ScriptNum.LeBytes(y) == [(y % 256) as byte] + ScriptNum.LeBytes(z);
    assert ScriptNum.LeBytes(x) == [(x % 256) as byte] + ScriptNum.LeBytes(y);
    assert ScriptNum.LeBytes(n) == [(n % 256) as byte] + ScriptNum.LeBytes(x);
    assert ScriptNum.Encode(n) == [(n % 256) as byte, (x % 256) as byte, (y % 256) as byte, z as byte];
  }

  /** The bytes of the contract, hashes and lock time in their places. */
  lemma ContractScriptBytes(t: Terms)
    requires WellFormed(t)
    ensures |ScriptNum.Encode(t.lockTime)| <= 9
    ensures ContractScript(t) ==
            [0x63]
            + ([0x82, 0x01, 0x20, 0x88] + ([0xa8, 0x20] + t.secretHash + [0x88]) + ([0x76, 0xa9, 0x14] + t.pkhThem))
            + [0x67]
            + ((IntBytes(t.lockTime) + [0xb1, 0x75]) + ([0x76, 0xa9, 0x14] + t.pkhMe))
            + [0x68, 0x88, 0xac]
  {
    var claim, refund := ClaimBranch(t), RefundBranch(t);
    ClaimBranchBytes(t);
    RefundBranchBytes(t);
    TailBytes();
    AssembleOne(Op(OP_IF));
    AssembleOne(Op(OP_ELSE));
    AssembleAppend([Op(OP_IF)], claim);
    AssembleAppend([Op(OP_IF)] + claim, [Op(OP_ELSE)]);
    AssembleAppend([Op(OP_IF)] + claim + [Op(OP_ELSE)], refund);
    AssembleAppend([Op(OP_IF)] + claim + [Op(OP_ELSE)] + refund, Tail);
    assert Program(t) == [Op(OP_IF)] + claim + [Op(OP_ELSE)] + refund + Tail;
  }

  /** The inputs: signature, key, secret and OP_1 to claim, signature, key and OP_0 to refund, then the script. */
  lemma InputBytes(script: Bytes, sig: Bytes, pubkey: Bytes, secret: Bytes)
    requires Small(script) && Small(sig) && Small(pubkey) && |secret| == 32
    ensures RedeemInput(script, sig, pubkey, secret) ==
            (DataBytes(sig) + DataBytes(pubkey) + ([0x20] + secret)) + ([0x51] + DataBytes(script))
    ensures RefundInput(script, sig, pubkey) == DataBytes(sig) + DataBytes(pubkey) + [0x00] + DataBytes(script)
  {
    DataInstrBytes(script);
    DataInstrBytes(sig);
    DataInstrBytes(pubkey);
    DataInstrBytes(secret);
    InputsCanonical(script, sig, pubkey, secret);
    AssembleThree(DataInstr(sig), DataInstr(pubkey), DataInstr(secret));
    AssembleOne(Op(OP_1));
    AssembleOne(DataInstr(script));
    AssembleAppend([Op(OP_1)], [DataInstr(script)]);
    AssembleAppend([DataInstr(sig), DataInstr(pubkey), DataInstr(secret)], [Op(OP_1)] + [DataInstr(script)]);
    assert RedeemProgram(script, sig, pubkey, secret)
      == [DataInstr(sig), DataInstr(pubkey), DataInstr(secret)] + ([Op(OP_1)] + [DataInstr(script)]);
    AssembleThree(DataInstr(sig), DataInstr(pubkey), Op(OP_0));
    AssembleAppend([DataInstr(sig), DataInstr(pubkey), Op(OP_0)], [DataInstr(script)]);
    assert RefundProgram(script, sig, pubkey)
      == [DataInstr(sig), DataInstr(pubkey), Op(OP_0)] + [DataInstr(script)];
  }
}
