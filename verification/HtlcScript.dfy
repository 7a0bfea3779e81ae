/**
 The Bitcoin HTLC: the script the funder locks coins with, the two input scripts that
 spend it, and what exactly they need to succeed.
 */
module HtlcScript {
  import opened Common
  import opened Script
  import ScriptNum

  /** The contract: the funder's and the counterparty's key hashes, the lock time, the secret hash. */
  datatype Terms = Terms(pkhMe: Bytes, pkhThem: Bytes, lockTime: int, secretHash: Bytes)

  predicate WellFormed(t: Terms) {
    && |t.pkhMe| == 20 && |t.pkhThem| == 20 && |t.secretHash| == 32
    && -0x8000_0000_0000_0000 <= t.lockTime < 0x8000_0000_0000_0000
  }

  function IntInstr(n: int): Instr {
    if n == 0 then Op(OP_0)
    else if n == -1 || 1 <= n <= 16 then Op((OP_1 as int - 1 + n) as byte)
    else Push(ScriptNum.Encode(n))
  }

  function ClaimBranch(t: Terms): seq<Instr> {
    [Op(OP_SIZE), Push([32]), Op(OP_EQUALVERIFY), Op(OP_SHA256), Push(t.secretHash), Op(OP_EQUALVERIFY),
     Op(OP_DUP), Op(OP_HASH160), Push(t.pkhThem)]
  }

  function RefundBranch(t: Terms): seq<Instr> {
    [IntInstr(t.lockTime), Op(OP_CHECKLOCKTIMEVERIFY), Op(OP_DROP), Op(OP_DUP), Op(OP_HASH160), Push(t.pkhMe)]
  }

  const Tail: seq<Instr> := [Op(OP_ENDIF), Op(OP_EQUALVERIFY), Op(OP_CHECKSIG)]

  function AfterIf(t: Terms): seq<Instr> {
    ClaimBranch(t) + ([Op(OP_ELSE)] + (RefundBranch(t) + Tail))
  }

  function Program(t: Terms): seq<Instr> {
    [Op(OP_IF)] + AfterIf(t)
  }

  // ---------------------------------------------------------------- script exactness

  /** Flag true, a 32-byte preimage, the counterparty's key and a valid signature. */
  predicate ClaimWitness(ctx: Context, t: Terms, w: seq<Bytes>) {
    && |w| >= 4 && AsBool(Peek(w, 0))
    && |Peek(w, 1)| == 32 && ctx.sha256(Peek(w, 1)) == t.secretHash
    && ctx.hash160(Peek(w, 2)) == t.pkhThem && ctx.checkSig(Peek(w, 3), Peek(w, 2))
  }

  /** Flag false, the lock time reached, the funder's key and a valid signature. */
  predicate RefundWitness(ctx: Context, t: Terms, w: seq<Bytes>) {
    && |w| >= 3 && !AsBool(Peek(w, 0))
    && LockTimeReached(ctx, t.lockTime)
    && ctx.hash160(Peek(w, 1)) == t.pkhMe && ctx.checkSig(Peek(w, 2), Peek(w, 1))
  }

  function Then(ctx: Context, r: Option<Machine>, program: seq<Instr>): Option<Machine> {
    match r
    case None => None
    case Some(m) => Run(ctx, program, m)
  }

  lemma {:induction false} RunAppend(ctx: Context, p: seq<Instr>, q: seq<Instr>, m: Machine)
    ensures Run(ctx, p + q, m) == Then(ctx, Run(ctx, p, m), q)
    decreases |p|
  {
    if p == [] {
      assert p + q == q;
    } else {
      assert (p + q)[1..] == p[1..] + q;
      match Exec(ctx, p[0], m)
      case None =>
      case Some(m') => RunAppend(ctx, p[1..], q, m');
    }
  }

  predicate Plain(program: seq<Instr>) {
    forall i | 0 <= i < |program| ::
      match program[i]
      case Push(data) => |data| <= MaxElement
      case Op(code) => code != OP_IF && code != OP_ELSE && code != OP_ENDIF
  }

  lemma {:induction false} Skipped(ctx: Context, program: seq<Instr>, m: Machine)
    requires Plain(program) && !Executing(m)
    ensures Run(ctx, program, m) == Some(m)
    decreases |program|
  {
    if program != [] {
      assert Plain(program[1..]);
      Skipped(ctx, program[1..], m);
    }
  }

  lemma EncodeIs32(n: nat)
    ensures ScriptNum.Encode(n) == [32] <==> n == 32
  {
  }

  lemma RunCons(ctx: Context, head: Instr, rest: seq<Instr>, m: Machine)
    ensures Run(ctx, [head] + rest, m) == Then(ctx, Exec(ctx, head, m), rest)
  {
  }

  lemma RunThree(ctx: Context, a: Instr, b: Instr, c: Instr, m: Machine)
    ensures Run(ctx, [a, b, c], m) ==
            match Exec(ctx, a, m)
            case None => None
            case Some(m1) =>
              match Exec(ctx, b, m1)
              case None => None
              case Some(m2) => Exec(ctx, c, m2)
  {
    assert [a, b, c] == [a] + [b, c];
    RunCons(ctx, a, [b, c], m);
    match Exec(ctx, a, m)
    case None =>
    case Some(m1) =>
      assert [b, c] == [b] + [c];
      RunCons(ctx, b, [c], m1);
      match Exec(ctx, b, m1)
      case None =>
      case Some(m2) =>
        assert [c] == [c] + [];
        RunCons(ctx, c, [], m2);
  }

  /** The size check passes its stack on exactly when the top is 32 bytes long. */
  lemma SizeCheck(ctx: Context, s: seq<Bytes>, conds: seq<Cond>)
    requires Executing(Machine(s, conds))
    ensures Run(ctx, [Op(OP_SIZE), Push([32]), Op(OP_EQUALVERIFY)], Machine(s, conds)) ==
            if |s| >= 1 && |Peek(s, 0)| == 32 then Some(Machine(s, conds)) else None
  {
    RunThree(ctx, Op(OP_SIZE), Push([32]), Op(OP_EQUALVERIFY), Machine(s, conds));
    if |s| >= 1 {
      EncodeIs32(|Peek(s, 0)|);
      assert Pop(s + [ScriptNum.Encode(|Peek(s, 0)|)] + [[32]], 2) == s;
    }
  }

  lemma HashCheck(ctx: Context, s: seq<Bytes>, conds: seq<Cond>, hash: Bytes)
    requires Executing(Machine(s, conds)) && |hash| <= MaxElement && |s| >= 1
    ensures Run(ctx, [Op(OP_SHA256), Push(hash), Op(OP_EQUALVERIFY)], Machine(s, conds)) ==
            if ctx.sha256(Peek(s, 0)) == hash then Some(Machine(Pop(s, 1), conds)) else None
  {
    RunThree(ctx, Op(OP_SHA256), Push(hash), Op(OP_EQUALVERIFY), Machine(s, conds));
    assert Pop(Pop(s, 1) + [ctx.sha256(Peek(s, 0))] + [hash], 2) == Pop(s, 1);
  }

  lemma KeyHash(ctx: Context, s: seq<Bytes>, conds: seq<Cond>, pkh: Bytes)
    requires Executing(Machine(s, conds)) && |pkh| <= MaxElement
    ensures Run(ctx, [Op(OP_DUP), Op(OP_HASH160), Push(pkh)], Machine(s, conds)) ==
            if |s| >= 1 then Some(Machine(s + [ctx.hash160(Peek(s, 0)), pkh], conds)) else None
  {
    RunThree(ctx, Op(OP_DUP), Op(OP_HASH160), Push(pkh), Machine(s, conds));
    if |s| >= 1 {
      assert Pop(s + [Peek(s, 0)], 1) == s;
      assert s + [ctx.hash160(Peek(s, 0))] + [pkh] == s + [ctx.hash160(Peek(s, 0)), pkh];
    }
  }

  lemma IntPush(ctx: Context, n: int, m: Machine)
    requires Executing(m) && |ScriptNum.Encode(n)| <= MaxElement
    ensures Exec(ctx, IntInstr(n), m) == Some(m.(stack := m.stack + [ScriptNum.Encode(n)]))
  {
    if n == -1 {
      assert ScriptNum.LeBytes(1) == [1];
      assert ScriptNum.Encode(n) == [0x81];
    } else if 1 <= n <= 16 {
      assert ScriptNum.LeBytes(n) == [n as byte];
    }
  }

  lemma LockCheck(ctx: Context, s: seq<Bytes>, conds: seq<Cond>, lock: int)
    requires Executing(Machine(s, conds)) && |ScriptNum.Encode(lock)| <= MaxElement
    requires ctx.lockTime < ScriptNum.TwoTo32
    ensures Run(ctx, [IntInstr(lock), Op(OP_CHECKLOCKTIMEVERIFY), Op(OP_DROP)], Machine(s, conds)) ==
            if LockTimeReached(ctx, lock) then Some(Machine(s, conds)) else None
  {
    RunThree(ctx, IntInstr(lock), Op(OP_CHECKLOCKTIMEVERIFY), Op(OP_DROP), Machine(s, conds));
    IntPush(ctx, lock, Machine(s, conds));
    ScriptNum.RoundTrip(lock);
    if LockTimeReached(ctx, lock) {
      ScriptNum.EncodeFitsFiveBytes(lock);
    }
    assert Pop(s + [ScriptNum.Encode(lock)], 1) == s;
  }

  lemma ClaimBranchRun(ctx: Context, t: Terms, s: seq<Bytes>, conds: seq<Cond>)
    requires WellFormed(t) && Executing(Machine(s, conds))
    ensures Run(ctx, ClaimBranch(t), Machine(s, conds)) ==
            if |s| >= 2 && |Peek(s, 0)| == 32 && ctx.sha256(Peek(s, 0)) == t.secretHash
            then Some(Machine(Pop(s, 1) + [ctx.hash160(Peek(s, 1)), t.pkhThem], conds))
            else None
  {
    var size := [Op(OP_SIZE), Push([32]), Op(OP_EQUALVERIFY)];
    var hash := [Op(OP_SHA256), Push(t.secretHash), Op(OP_EQUALVERIFY)];
    var key := [Op(OP_DUP), Op(OP_HASH160), Push(t.pkhThem)];
    assert ClaimBranch(t) == size + (hash + key);
    RunAppend(ctx, size, hash + key, Machine(s, conds));
    RunAppend(ctx, hash, key, Machine(s, conds));
    SizeCheck(ctx, s, conds);
    if |s| >= 1 {
      HashCheck(ctx, s, conds, t.secretHash);
      KeyHash(ctx, Pop(s, 1), conds, t.pkhThem);
    }
  }

  lemma RefundBranchRun(ctx: Context, t: Terms, s: seq<Bytes>, conds: seq<Cond>)
    requires WellFormed(t) && Executing(Machine(s, conds)) && ctx.lockTime < ScriptNum.TwoTo32
    ensures Run(ctx, RefundBranch(t), Machine(s, conds)) ==
            if |s| >= 1 && LockTimeReached(ctx, t.lockTime)
            then Some(Machine(s + [ctx.hash160(Peek(s, 0)), t.pkhMe], conds))
            else None
  {
    var lock := [IntInstr(t.lockTime), Op(OP_CHECKLOCKTIMEVERIFY), Op(OP_DROP)];
    var key := [Op(OP_DUP), Op(OP_HASH160), Push(t.pkhMe)];
    assert RefundBranch(t) == lock + key;
    RunAppend(ctx, lock, key, Machine(s, conds));
    ScriptNum.EncodeIsShort(t.lockTime);
    LockCheck(ctx, s, conds, t.lockTime);
    KeyHash(ctx, s, conds, t.pkhMe);
  }

  predicate AcceptedBy(r: Option<Machine>) {
    r.Some? && r.value.conds == [] && r.value.stack != [] && AsBool(Peek(r.value.stack, 0))
  }

  lemma TailRun(ctx: Context, s: seq<Bytes>, found: Bytes, expected: Bytes, cond: Cond)
    requires |s| >= 1
    ensures AcceptedBy(Run(ctx, Tail, Machine(s + [found, expected], [cond])))
            <==> found == expected && |s| >= 2 && ctx.checkSig(Peek(s, 1), Peek(s, 0))
  {
    var m := Machine(s + [found, expected], [cond]);
    RunThree(ctx, Op(OP_ENDIF), Op(OP_EQUALVERIFY), Op(OP_CHECKSIG), m);
    assert Pop(m.stack, 2) == s;
    assert [cond][..0] == [];
    assert !AsBool([]);
    assert AsBool([1]) by {
      var one: Bytes := [1];
      assert one[0] != 0;
    }
  }

  /** The rest of the script after OP_IF took the claim side. */
  lemma ClaimSide(ctx: Context, t: Terms, s: seq<Bytes>)
    requires WellFormed(t)
    ensures AcceptedBy(Run(ctx, AfterIf(t), Machine(s, [CondTrue])))
            <==> |s| >= 3 && |Peek(s, 0)| == 32 && ctx.sha256(Peek(s, 0)) == t.secretHash
                 && ctx.hash160(Peek(s, 1)) == t.pkhThem && ctx.checkSig(Peek(s, 2), Peek(s, 1))
  {
    var refund := RefundBranch(t) + Tail;
    RunAppend(ctx, ClaimBranch(t), [Op(OP_ELSE)] + refund, Machine(s, [CondTrue]));
    ClaimBranchRun(ctx, t, s, [CondTrue]);
    if |s| >= 2 {
      var keyed := Pop(s, 1) + [ctx.hash160(Peek(s, 1)), t.pkhThem];
      var off := Machine(keyed, [CondFalse]);
      RunCons(ctx, Op(OP_ELSE), refund, Machine(keyed, [CondTrue]));
      assert [CondTrue][0 := CondFalse] == [CondFalse];
      ScriptNum.EncodeIsShort(t.lockTime);
      Skipped(ctx, RefundBranch(t), off);
      RunAppend(ctx, RefundBranch(t), Tail, off);
      TailRun(ctx, Pop(s, 1), ctx.hash160(Peek(s, 1)), t.pkhThem, CondFalse);
    }
  }

  /** The rest of the script after OP_IF took the refund side. */
  lemma RefundSide(ctx: Context, t: Terms, s: seq<Bytes>)
    requires WellFormed(t) && ctx.lockTime < ScriptNum.TwoTo32
    ensures AcceptedBy(Run(ctx, AfterIf(t), Machine(s, [CondFalse])))
            <==> |s| >= 2 && LockTimeReached(ctx, t.lockTime)
                 && ctx.hash160(Peek(s, 0)) == t.pkhMe && ctx.checkSig(Peek(s, 1), Peek(s, 0))
  {
    var refund := RefundBranch(t) + Tail;
    var m := Machine(s, [CondFalse]);
    RunAppend(ctx, ClaimBranch(t), [Op(OP_ELSE)] + refund, m);
    Skipped(ctx, ClaimBranch(t), m);
    RunCons(ctx, Op(OP_ELSE), refund, m);
    assert [CondFalse][0 := CondTrue] == [CondTrue];
    RunAppend(ctx, RefundBranch(t), Tail, Machine(s, [CondTrue]));
    RefundBranchRun(ctx, t, s, [CondTrue]);
    if |s| >= 1 {
      TailRun(ctx, s, ctx.hash160(Peek(s, 0)), t.pkhMe, CondTrue);
    }
  }

  /** The machine after OP_IF has consumed the flag. */
  function Flagged(w: seq<Bytes>): Machine
    requires |w| >= 1
  {
    Machine(Pop(w, 1), [if AsBool(Peek(w, 0)) then CondTrue else CondFalse])
  }

  lemma IfStep(ctx: Context, w: seq<Bytes>)
    ensures Exec(ctx, Op(OP_IF), Machine(w, [])) == if |w| < 1 then None else Some(Flagged(w))
  {
    if |w| >= 1 {
      assert [] + Flagged(w).conds == Flagged(w).conds;
    }
  }

  /** Which of the two sides runs is decided by the flag alone. */
  lemma TakesOneSide(ctx: Context, t: Terms, w: seq<Bytes>)
    ensures Run(ctx, Program(t), Machine(w, [])) == if |w| < 1 then None else Run(ctx, AfterIf(t), Flagged(w))
  {
    RunCons(ctx, Op(OP_IF), AfterIf(t), Machine(w, []));
    IfStep(ctx, w);
  }

  /**
   The contract can be spent in exactly two ways: for every stack of witness items the
   script succeeds if and only if they form a claim or a refund.
   */
  lemma ScriptExact(ctx: Context, t: Terms, w: seq<Bytes>)
    requires WellFormed(t) && ctx.lockTime < ScriptNum.TwoTo32
    ensures Accepts(ctx, Program(t), w) <==> ClaimWitness(ctx, t, w) || RefundWitness(ctx, t, w)
  {
    TakesOneSide(ctx, t, w);
    if |w| >= 1 {
      var s := Pop(w, 1);
      assert forall k: nat | k < |s| :: Peek(s, k) == Peek(w, k + 1);
      if AsBool(Peek(w, 0)) {
        assert Flagged(w) == Machine(s, [CondTrue]);
        ClaimSide(ctx, t, s);
      } else {
        assert Flagged(w) == Machine(s, [CondFalse]);
        RefundSide(ctx, t, s);
      }
    }
  }

  // ---------------------------------------------------------------- the script as bytes

  function DataInstr(data: Bytes): Instr {
    if data == [] || data == [0] then Op(OP_0)
    else if |data| == 1 && data[0] <= 16 then Op(OP_1 - 1 + data[0])
    else if data == [0x81] then Op(OP_1NEGATE)
    else Push(data)
  }

  /** What pushing `data` leaves on the stack: the builder writes a lone zero byte as an empty push. */
  function Pushed(data: Bytes): Bytes {
    if data == [0] then [] else data
  }

  function Prefixed(instr: Instr, rest: Option<seq<Instr>>): Option<seq<Instr>> {
    match rest
    case None => None
    case Some(program) => Some([instr] + program)
  }

  lemma ParseOp(code: byte, rest: Bytes)
    requires !IsDataPush(code)
    ensures Parse([code] + rest) == Prefixed(Op(code), Parse(rest))
  {
  }

  lemma ParsePush(header: Bytes, data: Bytes, rest: Bytes)
    requires header != [] && IsDataPush(header[0])
    requires PushLength(header + data + rest) == Some((|header|, |data|))
    ensures Parse(header + data + rest) == Prefixed(Push(data), Parse(rest))
  {
  }

  lemma LeOfTwo(n: nat)
    requires n < 0x1_0000
    ensures ScriptNum.LeValue([(n % 256) as byte, (n / 256) as byte]) == n
  {
    var b: Bytes := [(n % 256) as byte, (n / 256) as byte];
    assert b[1..] == [(n / 256) as byte];
    ScriptNum.LeValueOne(b[1]);
  }

  lemma ParseShort(data: Bytes, rest: Bytes)
    requires 0 < |data| < OP_PUSHDATA1 as int
    ensures Parse([|data| as byte] + data + rest) == Prefixed(Push(data), Parse(rest))
  {
  }

  lemma ParseMedium(data: Bytes, rest: Bytes)
    requires |data| <= 0xff
    ensures Parse([OP_PUSHDATA1, |data| as byte] + data + rest) == Prefixed(Push(data), Parse(rest))
  {
    var header: Bytes := [OP_PUSHDATA1, |data| as byte];
    assert (header + data + rest)[1..2] == [|data| as byte];
    ScriptNum.LeValueOne(|data| as byte);
    ParsePush(header, data, rest);
  }

  lemma ParseLong(data: Bytes, rest: Bytes)
    requires |data| < 0x1_0000
    ensures Parse([OP_PUSHDATA2, (|data| % 256) as byte, (|data| / 256) as byte] + data + rest)
            == Prefixed(Push(data), Parse(rest))
  {
    var header: Bytes := [OP_PUSHDATA2, (|data| % 256) as byte, (|data| / 256) as byte];
    assert (header + data + rest)[1..3] == header[1..];
    LeOfTwo(|data|);
    ParsePush(header, data, rest);
  }

  lemma ParseData(data: Bytes, rest: Bytes)
    requires |data| <= MaxElement
    ensures Parse(DataBytes(data) + rest) == Prefixed(DataInstr(data), Parse(rest))
  {
    if DataInstr(data).Op? {
      ParseOp(DataInstr(data).code, rest);
    } else if |data| < OP_PUSHDATA1 as int {
      ParseShort(data, rest);
    } else if |data| <= 0xff {
      ParseMedium(data, rest);
    } else {
      ParseLong(data, rest);
    }
  }

}
