/**
 Spending the Bitcoin contract through its script hash: which inputs succeed, when a refund
 is possible, and that the secret is always recovered from a claim.
 */
module Spending {
  import opened Common
  import opened Script
  import opened HtlcScript
  import opened BtcContract
  import ScriptNum

  // ---------------------------------------------------------------- size of the contract script

  lemma {:induction false} ConcatLength(chunks: seq<Bytes>, bound: nat)
    requires forall i | 0 <= i < |chunks| :: |chunks[i]| <= bound
    ensures |Concat(chunks)| <= bound * |chunks|
    decreases |chunks|
  {
    if chunks != [] {
      ConcatLength(chunks[..|chunks| - 1], bound);
      assert bound * (|chunks| - 1) + bound == bound * |chunks|;
    }
  }

  lemma {:induction false} ConcatAppend(a: seq<Bytes>, b: seq<Bytes>)
    ensures Concat(a + b) == Concat(a) + Concat(b)
    decreases |b|
  {
    if b == [] {
      assert a + b == a;
    } else {
      assert (a + b)[..|a + b| - 1] == a + b[..|b| - 1];
      ConcatAppend(a, b[..|b| - 1]);
    }
  }

  lemma ContractScriptIsSmall(t: Terms)
    requires WellFormed(t)
    ensures Small(ContractScript(t))
  {
    ProgramCanonical(t);
    ScriptNum.EncodeIsShort(t.lockTime);
    var chunks := Chunks(Program(t));
    assert |chunks| == 20;
    ConcatAppend(chunks[..6], chunks[6..]);
    assert chunks[..6] + chunks[6..] == chunks;
    ConcatLength(chunks[..6], 33);
    IntInstrBytes(t.lockTime);
    FlatProgram(t);
    ConcatLength(chunks[6..], 21);
  }

  // ---------------------------------------------------------------- running an input

  lemma DataPush(ctx: Context, data: Bytes, s: seq<Bytes>)
    requires Small(data)
    ensures Exec(ctx, DataInstr(data), Machine(s, [])) == Some(Machine(s + [Pushed(data)], []))
  {
    if |data| == 1 {
      assert data == [data[0]];
    }
  }

  lemma TwoPushes(ctx: Context, x: Bytes, y: Bytes)
    requires Small(x) && Small(y)
    ensures Run(ctx, [DataInstr(x), DataInstr(y)], Machine([], [])) == Some(Machine([Pushed(x), Pushed(y)], []))
  {
    DataPush(ctx, x, []);
    DataPush(ctx, y, [Pushed(x)]);
    assert [] + [Pushed(x)] == [Pushed(x)];
    assert [Pushed(x)] + [Pushed(y)] == [Pushed(x), Pushed(y)];
    RunTwo(ctx, DataInstr(x), DataInstr(y), Machine([], []));
  }

  lemma RedeemInputRun(ctx: Context, script: Bytes, sig: Bytes, pubkey: Bytes, secret: Bytes)
    requires Small(script) && Small(sig) && Small(pubkey) && Small(secret)
    ensures Run(ctx, RedeemProgram(script, sig, pubkey, secret), Machine([], [])) ==
            Some(Machine([Pushed(sig), Pushed(pubkey), Pushed(secret), [1], Pushed(script)], []))
    ensures PushOnly(RedeemProgram(script, sig, pubkey, secret))
  {
    var s2 := [Pushed(sig), Pushed(pubkey)];
    var rest := [DataInstr(secret), Op(OP_1), DataInstr(script)];
    TwoPushes(ctx, sig, pubkey);
    RunAppend(ctx, [DataInstr(sig), DataInstr(pubkey)], rest, Machine([], []));
    assert RedeemProgram(script, sig, pubkey, secret) == [DataInstr(sig), DataInstr(pubkey)] + rest;
    RunThree(ctx, DataInstr(secret), Op(OP_1), DataInstr(script), Machine(s2, []));
    DataPush(ctx, secret, s2);
    DataPush(ctx, script, s2 + [Pushed(secret)] + [[1]]);
    assert s2 + [Pushed(secret)] + [[1]] + [Pushed(script)]
      == [Pushed(sig), Pushed(pubkey), Pushed(secret), [1], Pushed(script)];
  }

  lemma RefundInputRun(ctx: Context, script: Bytes, sig: Bytes, pubkey: Bytes)
    requires Small(script) && Small(sig) && Small(pubkey)
    ensures Run(ctx, RefundProgram(script, sig, pubkey), Machine([], [])) ==
            Some(Machine([Pushed(sig), Pushed(pubkey), [], Pushed(script)], []))
    ensures PushOnly(RefundProgram(script, sig, pubkey))
  {
    var s2 := [Pushed(sig), Pushed(pubkey)];
    TwoPushes(ctx, sig, pubkey);
    RunAppend(ctx, [DataInstr(sig), DataInstr(pubkey)], [Op(OP_0), DataInstr(script)], Machine([], []));
    assert RefundProgram(script, sig, pubkey) == [DataInstr(sig), DataInstr(pubkey)] + [Op(OP_0), DataInstr(script)];
    RunTwo(ctx, Op(OP_0), DataInstr(script), Machine(s2, []));
    DataPush(ctx, script, s2 + [[]]);
    assert s2 + [[]] + [Pushed(script)] == [Pushed(sig), Pushed(pubkey), [], Pushed(script)];
  }

  lemma RunTwo(ctx: Context, a: Instr, b: Instr, m: Machine)
    ensures Run(ctx, [a, b], m) ==
            match Exec(ctx, a, m)
            case None => None
            case Some(m1) => Exec(ctx, b, m1)
  {
    assert [a, b] == [a] + [b];
    RunCons(ctx, a, [b], m);
    match Exec(ctx, a, m)
    case None =>
    case Some(m1) =>
      assert [b] == [b] + [];
      RunCons(ctx, b, [], m1);
  }

  lemma ContractScriptParses(t: Terms)
    requires WellFormed(t)
    ensures Parse(ContractScript(t)) == Some(Program(t)) && Pushed(ContractScript(t)) == ContractScript(t)
  {
    ProgramCanonical(t);
    ParseAssemble(Program(t));
  }

  // ---------------------------------------------------------------- which inputs spend the contract

  predicate SpendsContract(ctx: Context, t: Terms, input: Bytes)
    requires WellFormed(t)
  {
    SpendsScriptHash(ctx, input, ctx.hash160(ContractScript(t)))
  }

  /** The redeem input succeeds if and only if the secret, the key and the signature are right. */
  lemma RedeemInputExact(ctx: Context, t: Terms, sig: Bytes, pubkey: Bytes, secret: Bytes)
    requires WellFormed(t) && ctx.lockTime < ScriptNum.TwoTo32
    requires Small(sig) && Small(pubkey) && |secret| == 32
    ensures Small(ContractScript(t))
    ensures SpendsContract(ctx, t, RedeemInput(ContractScript(t), sig, pubkey, secret))
            <==> ctx.sha256(secret) == t.secretHash
                 && ctx.hash160(Pushed(pubkey)) == t.pkhThem && ctx.checkSig(Pushed(sig), Pushed(pubkey))
  {
    var script := ContractScript(t);
    ContractScriptIsSmall(t);
    ContractScriptParses(t);
    InputsCanonical(script, sig, pubkey, secret);
    ParseAssemble(RedeemProgram(script, sig, pubkey, secret));
    RedeemInputRun(ctx, script, sig, pubkey, secret);
    var w := [Pushed(sig), Pushed(pubkey), secret, [1]];
    assert Pop([Pushed(sig), Pushed(pubkey), secret, [1], script], 1) == w;
    assert AsBool(Peek(w, 0)) by {
      assert Peek(w, 0)[0] != 0;
    }
    ScriptExact(ctx, t, w);
  }

  /** The refund input succeeds if and only if the lock is reached and the key and signature are right. */
  lemma RefundInputExact(ctx: Context, t: Terms, sig: Bytes, pubkey: Bytes)
    requires WellFormed(t) && ctx.lockTime < ScriptNum.TwoTo32
    requires Small(sig) && Small(pubkey)
    ensures Small(ContractScript(t))
    ensures SpendsContract(ctx, t, RefundInput(ContractScript(t), sig, pubkey))
            <==> LockTimeReached(ctx, t.lockTime)
                 && ctx.hash160(Pushed(pubkey)) == t.pkhMe && ctx.checkSig(Pushed(sig), Pushed(pubkey))
  {
    var script := ContractScript(t);
    ContractScriptIsSmall(t);
    ContractScriptParses(t);
    InputsCanonical(script, sig, pubkey, []);
    ParseAssemble(RefundProgram(script, sig, pubkey));
    RefundInputRun(ctx, script, sig, pubkey);
    var w := [Pushed(sig), Pushed(pubkey), []];
    assert Pop([Pushed(sig), Pushed(pubkey), [], script], 1) == w;
    ScriptExact(ctx, t, w);
  }

  // ---------------------------------------------------------------- refund timing

  /** The lock time field `Refund` gives its transaction: the contract's, cut to 32 bits. */
  function RefundLockTime(timeLock: int): int {
    timeLock % ScriptNum.TwoTo32
  }

  const RefundSequence := 0

  /**
   The refund transaction, properly signed, passes for exactly the time locks that fit in 32
   bits; and a transaction with a smaller lock time never passes, however it is signed.
   */
  lemma RefundTiming(ctx: Context, t: Terms, sig: Bytes, pubkey: Bytes)
    requires WellFormed(t) && Small(sig) && Small(pubkey) && 0 <= ctx.lockTime < ScriptNum.TwoTo32
    ensures Small(ContractScript(t))
    ensures ctx.lockTime == RefundLockTime(t.lockTime) && ctx.sequence == RefundSequence
            && ctx.hash160(Pushed(pubkey)) == t.pkhMe && ctx.checkSig(Pushed(sig), Pushed(pubkey))
            ==> (SpendsContract(ctx, t, RefundInput(ContractScript(t), sig, pubkey))
                 <==> 0 <= t.lockTime < ScriptNum.TwoTo32)
    ensures ctx.lockTime < t.lockTime ==> !SpendsContract(ctx, t, RefundInput(ContractScript(t), sig, pubkey))
  {
    RefundInputExact(ctx, t, sig, pubkey);
  }

  /** BIP 65: a smaller lock time, a lock of the other kind, and a final input each keep the lock shut. */
  lemma LockStaysShut(ctx: Context, lock: int)
    requires ctx.lockTime < lock || lock < 500000000 <= ctx.lockTime || ctx.sequence == 0xffff_ffff
    ensures !LockTimeReached(ctx, lock)
  {
  }

  /**
   Whatever input a transaction has, only a claim passes as long as its lock time is smaller than
   the contract's, or one of the two is a block height and the other a time, or the input is final.
   */
  lemma OnlyClaimsBeforeExpiry(ctx: Context, t: Terms, input: Bytes)
    requires WellFormed(t) && ctx.lockTime < ScriptNum.TwoTo32
    requires ctx.lockTime < t.lockTime || t.lockTime < 500000000 <= ctx.lockTime || ctx.sequence == 0xffff_ffff
    requires SpendsContract(ctx, t, input) && ScriptHashIsUnique(ctx, t, input)
    ensures ClaimWitness(ctx, t, WitnessOf(input))
  {
    SpendRunsContract(ctx, t, input);
    LockStaysShut(ctx, t.lockTime);
    ScriptExact(ctx, t, WitnessOf(input));
  }

  // ---------------------------------------------------------------- recovering the secret

  /** Copying into a 32-byte buffer cuts longer data and pads shorter data with zeros. */
  function Copy32(data: Bytes): (r: Bytes)
    ensures |r| == 32
    ensures |data| == 32 ==> r == data
    ensures forall i | 0 <= i < 32 :: r[i] == if i < |data| then data[i] else 0
  {
    if |data| >= 32 then data[..32] else data + seq(32 - |data|, i => 0)
  }

  datatype SecretError = Unparsable | MalformedRedeem

  /** The first push with the wanted hash. */
  function FirstMatch(sha256: Bytes -> Bytes, pushes: seq<Bytes>, secretHash: Bytes): Option<Bytes> {
    if pushes == [] then None
    else if sha256(pushes[0]) == secretHash then Some(pushes[0])
    else FirstMatch(sha256, pushes[1..], secretHash)
  }

  function AuditedSecret(sha256: Bytes -> Bytes, input: Bytes, secretHash: Bytes): Result<Bytes, SecretError> {
    match Parse(input)
    case None => Err(Unparsable)
    case Some(program) =>
      match FirstMatch(sha256, PushedData(program), secretHash)
      case None => Err(MalformedRedeem)
      case Some(push) => Ok(Copy32(push))
  }

  method AuditSecret(sha256: Bytes -> Bytes, input: Bytes, secretHash: Bytes) returns (r: Result<Bytes, SecretError>)
    ensures r == AuditedSecret(sha256, input, secretHash)
  {
    var program := Parse(input);
    if program.None? {
      return Err(Unparsable);
    }
    var pushes := PushedData(program.value);
    for i := 0 to |pushes|
      invariant FirstMatch(sha256, pushes, secretHash) == FirstMatch(sha256, pushes[i..], secretHash)
    {
      if sha256(pushes[i]) == secretHash {
        return Ok(Copy32(pushes[i]));
      }
      assert pushes[i..][1..] == pushes[i + 1..];
    }
    return Err(MalformedRedeem);
  }

  lemma {:induction false} FirstMatchExact(sha256: Bytes -> Bytes, pushes: seq<Bytes>, secretHash: Bytes)
    ensures match FirstMatch(sha256, pushes, secretHash)
            case Some(push) =>
              exists i | 0 <= i < |pushes| && pushes[i] == push ::
                sha256(push) == secretHash && forall j | 0 <= j < i :: sha256(pushes[j]) != secretHash
            case None => forall push | push in pushes :: sha256(push) != secretHash
  {
    if pushes != [] {
      FirstMatchExact(sha256, pushes[1..], secretHash);
      assert forall push | push in pushes :: push == pushes[0] || push in pushes[1..];
      match FirstMatch(sha256, pushes[1..], secretHash)
      case Some(push) =>
        var i :| 0 <= i < |pushes[1..]| && pushes[1..][i] == push && sha256(push) == secretHash
                 && forall j | 0 <= j < i :: sha256(pushes[1..][j]) != secretHash;
        assert pushes[i + 1] == push;
        assert forall j | 0 < j < i + 1 :: pushes[j] == pushes[1..][j - 1];
      case None =>
    }
  }

  /** The value an instruction of an input pushes. */
  function ValueOf(instr: Instr): Bytes {
    match instr
    case Push(data) => data
    case Op(code) => if ConstantOf(code).Some? then ConstantOf(code).value else []
  }

  function ValuesOf(program: seq<Instr>): seq<Bytes> {
    seq(|program|, i requires 0 <= i < |program| => ValueOf(program[i]))
  }

  lemma {:induction false} PushOnlyRun(ctx: Context, program: seq<Instr>, s: seq<Bytes>)
    requires PushOnly(program) && Run(ctx, program, Machine(s, [])).Some?
    ensures Run(ctx, program, Machine(s, [])).value == Machine(s + ValuesOf(program), [])
    decreases |program|
  {
    if program == [] {
      assert s + ValuesOf(program) == s;
    } else {
      var s' := s + [ValueOf(program[0])];
      assert Exec(ctx, program[0], Machine(s, [])) == Some(Machine(s', []));
      PushOnlyRun(ctx, program[1..], s');
      assert s' + ValuesOf(program[1..]) == s + ValuesOf(program);
    }
  }

  /** The audit looks at the data pushes and at the empty one; small constants are not listed. */
  lemma {:induction false} PushedDataExact(program: seq<Instr>, data: Bytes)
    ensures data in PushedData(program) <==> Push(data) in program || (data == [] && Op(0) in program)
    decreases |program|
  {
    if program != [] {
      PushedDataExact(program[1..], data);
      assert program == [program[0]] + program[1..];
      match program[0]
      case Push(_) =>
      case Op(_) =>
    }
  }

  /** Everything longer than a byte that an input pushes is listed as pushed data. */
  lemma {:induction false} LongValuesAreData(program: seq<Instr>, i: nat)
    requires i < |program| && |ValueOf(program[i])| > 1
    ensures ValueOf(program[i]) in PushedData(program)
    decreases |program|
  {
    if i > 0 {
      LongValuesAreData(program[1..], i - 1);
    }
  }

  /** The stack an input leaves for the contract script, its last push removed. */
  function WitnessOf(input: Bytes): seq<Bytes> {
    match Parse(input)
    case None => []
    case Some(program) => if program == [] then [] else ValuesOf(program[..|program| - 1])
  }

  /** Two pushes of this input with the same hash are the same bytes. */
  ghost predicate NoCollision(hash: Bytes -> Bytes, pushes: seq<Bytes>) {
    forall x, y | x in pushes && y in pushes && hash(x) == hash(y) :: x == y
  }

  /**
   An input that spends the contract with its flag set, given that the contract's script
   hash and the hashes of the input's own pushes have no second preimage in play.
   */
  ghost predicate ClaimAccepted(ctx: Context, t: Terms, input: Bytes) {
    && WellFormed(t) && ctx.lockTime < ScriptNum.TwoTo32
    && SpendsContract(ctx, t, input)
    && ScriptHashIsUnique(ctx, t, input)
    && NoCollision(ctx.sha256, PushedData(Parse(input).value))
    && WitnessOf(input) != [] && AsBool(Peek(WitnessOf(input), 0))
  }

  ghost predicate ScriptHashIsUnique(ctx: Context, t: Terms, input: Bytes)
    requires WellFormed(t) && Parse(input).Some?
  {
    forall i | 0 <= i < |Parse(input).value| ::
      var value := ValueOf(Parse(input).value[i]);
      ctx.hash160(value) == ctx.hash160(ContractScript(t)) ==> value == ContractScript(t)
  }

  lemma SpendRunsContract(ctx: Context, t: Terms, input: Bytes)
    requires WellFormed(t) && SpendsContract(ctx, t, input)
    requires ScriptHashIsUnique(ctx, t, input)
    ensures Accepts(ctx, Program(t), WitnessOf(input))
  {
    var program := Parse(input).value;
    PushOnlyRun(ctx, program, []);
    ContractScriptParses(t);
    var values := ValuesOf(program);
    assert [] + values == values;
    assert Pop(values, 1) == WitnessOf(input);
  }

  lemma DataMembers(program: seq<Instr>, w: seq<Bytes>, i: nat)
    requires i < |w| <= |program| && |w[i]| > 1
    requires forall k | 0 <= k < |w| :: w[k] == ValueOf(program[k])
    ensures w[i] in PushedData(program)
  {
    LongValuesAreData(program, i);
  }

  /** Without a collision among the pushes, the loop finds the one push that hashes to the wanted value. */
  lemma OnlyMatch(sha256: Bytes -> Bytes, pushes: seq<Bytes>, secret: Bytes)
    requires secret in pushes && NoCollision(sha256, pushes)
    ensures FirstMatch(sha256, pushes, sha256(secret)) == Some(secret)
  {
  }

  /** An accepted claim has the preimage second from the top, and among its pushed data. */
  lemma ClaimRevealsPreimage(ctx: Context, t: Terms, input: Bytes)
    requires ClaimAccepted(ctx, t, input)
    ensures ClaimWitness(ctx, t, WitnessOf(input))
    ensures Peek(WitnessOf(input), 1) in PushedData(Parse(input).value)
  {
    SpendRunsContract(ctx, t, input);
    var w := WitnessOf(input);
    ScriptExact(ctx, t, w);
    var program := Parse(input).value;
    assert w == ValuesOf(program[..|program| - 1]);
    DataMembers(program, w, |w| - 2);
  }

  /**
   Whoever spends the contract on the claim side hands over the secret: for every accepted
   input, the push loop returns exactly the 32 bytes the script hashed.
   */
  lemma SecretRoundTrip(ctx: Context, t: Terms, input: Bytes)
    requires ClaimAccepted(ctx, t, input)
    ensures |WitnessOf(input)| >= 4
    ensures var secret := Peek(WitnessOf(input), 1);
            && |secret| == 32 && ctx.sha256(secret) == t.secretHash
            && AuditedSecret(ctx.sha256, input, t.secretHash) == Ok(secret)
  {
    ClaimRevealsPreimage(ctx, t, input);
    OnlyMatch(ctx.sha256, PushedData(Parse(input).value), Peek(WitnessOf(input), 1));
  }

  /** A counterparty that reads the daemon's own claim off the chain recovers the very secret it was built with. */
  lemma OwnClaimIsAudited(ctx: Context, t: Terms, sig: Bytes, pubkey: Bytes, secret: Bytes)
    requires WellFormed(t) && ctx.lockTime < ScriptNum.TwoTo32
    requires Small(ContractScript(t)) && Small(sig) && Small(pubkey) && |secret| == 32
    requires NoCollision(ctx.sha256, PushedData(RedeemProgram(ContractScript(t), sig, pubkey, secret)))
    requires SpendsContract(ctx, t, RedeemInput(ContractScript(t), sig, pubkey, secret))
    ensures AuditedSecret(ctx.sha256, RedeemInput(ContractScript(t), sig, pubkey, secret), t.secretHash) == Ok(secret)
  {
    var program := RedeemProgram(ContractScript(t), sig, pubkey, secret);
    RedeemInputExact(ctx, t, sig, pubkey, secret);
    InputsCanonical(ContractScript(t), sig, pubkey, secret);
    ParseAssemble(program);
    assert ValueOf(program[2]) == secret;
    LongValuesAreData(program, 2);
    OnlyMatch(ctx.sha256, PushedData(program), secret);
  }

  /** The recovered secret opens every other contract locked with the same hash. */
  lemma SecretOpensOther(ctx: Context, t: Terms, input: Bytes,
                         ctx': Context, t': Terms, sig: Bytes, pubkey: Bytes)
    requires ClaimAccepted(ctx, t, input)
    requires WellFormed(t') && ctx'.lockTime < ScriptNum.TwoTo32
    requires t'.secretHash == t.secretHash && ctx'.sha256 == ctx.sha256
    requires Small(sig) && Small(pubkey)
    requires ctx'.hash160(Pushed(pubkey)) == t'.pkhThem && ctx'.checkSig(Pushed(sig), Pushed(pubkey))
    ensures Small(ContractScript(t')) && AuditedSecret(ctx.sha256, input, t.secretHash).Ok?
    ensures var secret := AuditedSecret(ctx.sha256, input, t.secretHash).value;
            && |secret| == 32
            && SpendsContract(ctx', t', RedeemInput(ContractScript(t'), sig, pubkey, secret))
  {
    SecretRoundTrip(ctx, t, input);
    RedeemInputExact(ctx', t', sig, pubkey, AuditedSecret(ctx.sha256, input, t.secretHash).value);
  }
}
