/**
 Every swap has a secret of its own. The secret is hashed from the password followed by the
 swap's ID, and what one swap's secret claims, no other swap's does.
 */
module Secrets {
  import opened Common
  import opened Swaps
  import opened Binder
  import opened Handler
  import opened Script
  import opened HtlcScript
  import Passes
  import BtcContract
  import ScriptNum
  import Spending

  /** The two inputs, if they differ, do not collide. */
  predicate Apart<T(==), R(==)>(hash: T -> R, x: T, y: T) {
    hash(x) == hash(y) ==> x == y
  }

  /** IDs are all of one length, so a password and an ID can be told apart in what is hashed. */
  lemma JoinedApart(password: string, id: SwapID, password': string, id': SwapID)
    requires |id| == |id'|
    ensures password + id == password' + id' <==> password == password' && id == id'
  {
    if password + id == password' + id' {
      assert |password| == |password'|;
      assert (password + id)[..|password|] == password && (password + id)[|password|..] == id;
      assert (password' + id')[..|password'|] == password' && (password' + id')[|password'|..] == id';
    }
  }

  /** A secret belongs to one password and one swap. */
  lemma SecretExact(sha3: string -> Bytes, password: string, id: SwapID, password': string, id': SwapID)
    requires |id| == |id'| && Apart(sha3, password + id, password' + id')
    ensures Passes.Secret(sha3, password, id) == Passes.Secret(sha3, password', id')
            <==> password == password' && id == id'
  {
    JoinedApart(password, id, password', id');
  }

  /** Two swaps of one password share a secret exactly when they are one swap, whatever their IDs look like. */
  lemma OneSecretEach(sha3: string -> Bytes, password: string, id: SwapID, id': SwapID)
    requires Apart(sha3, password + id, password + id')
    ensures Passes.Secret(sha3, password, id) == Passes.Secret(sha3, password, id') <==> id == id'
  {
    if password + id == password + id' {
      assert (password + id)[|password|..] == id && (password + id')[|password|..] == id';
    }
  }

  /** The length matters: a character moved from the ID to the password leaves the secret the same. */
  lemma LengthMatters(sha3: string -> Bytes)
    ensures "p" != "pi" && "id" != "d" && Passes.Secret(sha3, "p", "id") == Passes.Secret(sha3, "pi", "d")
  {
    assert "p" + "id" == "pi" + "d";
  }

  /** `blob` is what the handler makes of a request to initiate, at once or when the broker has filled it. */
  predicate Accepted(h: Host, request: SwapBlob, id: SwapID, now: int, blob: SwapBlob) {
    || (request.shouldInitiateFirst && PatchSwap(h, request, id, now) == Ok(blob))
    || PatchDelayedSwap(h, request, id, now) == Ok(blob)
  }

  /** Neither hash collides on what it is given for the two swaps. */
  predicate NoClash(h: Host, blob: SwapBlob, blob': SwapBlob) {
    && Apart(h.sha3, blob.password + blob.id, blob'.password + blob'.id)
    && Apart(h.sha256, SecretOf(h, blob), SecretOf(h, blob'))
  }

  function SecretOf(h: Host, blob: SwapBlob): Bytes {
    Passes.Secret(h.sha3, blob.password, blob.id)
  }

  function HashIn(h: Host, blob: SwapBlob): Option<Bytes> {
    UnmarshalSecretHash(h.tools, blob.secretHash)
  }

  /** The handler keeps the password, sets the ID it drew, and locks the swap with the hash of its secret. */
  lemma AcceptedHash(h: Host, request: SwapBlob, id: SwapID, now: int, blob: SwapBlob)
    requires Sane(h) && Accepted(h, request, id, now, blob)
    ensures blob.password == request.password && blob.id == id && HashIn(h, blob) == Some(h.sha256(SecretOf(h, blob)))
  {
    PatchedHash(h, request, id, now);
  }

  /** Two accepted swaps are locked with the same hash exactly when they are one swap of one owner. */
  lemma HashExact(h: Host, request: SwapBlob, id: SwapID, now: int, blob: SwapBlob,
                  request': SwapBlob, id': SwapID, now': int, blob': SwapBlob)
    requires Sane(h) && |id| == |id'|
    requires Accepted(h, request, id, now, blob) && Accepted(h, request', id', now', blob') && NoClash(h, blob, blob')
    ensures HashIn(h, blob) == HashIn(h, blob') <==> request.password == request'.password && id == id'
  {
    AcceptedHash(h, request, id, now, blob);
    AcceptedHash(h, request', id', now', blob');
    SecretExact(h.sha3, blob.password, blob.id, blob'.password, blob'.id);
  }

  /** A claim of one swap publishes its secret; that secret is no claim on the contract of any other swap. */
  lemma SecretOpensOnlyItsOwn(h: Host, request: SwapBlob, id: SwapID, now: int, blob: SwapBlob,
                              request': SwapBlob, id': SwapID, now': int, blob': SwapBlob,
                              ctx: Context, t: Terms, w: seq<Bytes>)
    requires Sane(h) && |id| == |id'| && (request.password != request'.password || id != id')
    requires Accepted(h, request, id, now, blob) && Accepted(h, request', id', now', blob') && NoClash(h, blob, blob')
    requires ctx.sha256 == h.sha256 && Some(t.secretHash) == HashIn(h, blob')
    requires ClaimWitness(ctx, t, w)
    ensures Peek(w, 1) != SecretOf(h, blob)
  {
    HashExact(h, request, id, now, blob, request', id', now', blob');
    AcceptedHash(h, request, id, now, blob);
  }

  /** So the input that spends the one Bitcoin contract, put to the other, is turned down. */
  lemma OtherContractStaysLocked(h: Host, request: SwapBlob, id: SwapID, now: int, blob: SwapBlob,
                                 request': SwapBlob, id': SwapID, now': int, blob': SwapBlob,
                                 ctx: Context, t: Terms, sig: Bytes, pubkey: Bytes)
    requires Sane(h) && |id| == |id'| && (request.password != request'.password || id != id')
    requires Accepted(h, request, id, now, blob) && Accepted(h, request', id', now', blob') && NoClash(h, blob, blob')
    requires ctx.sha256 == h.sha256 && ctx.lockTime < ScriptNum.TwoTo32
    requires WellFormed(t) && Some(t.secretHash) == HashIn(h, blob')
    requires BtcContract.Small(sig) && BtcContract.Small(pubkey)
    ensures BtcContract.Small(BtcContract.ContractScript(t))
    ensures !Spending.SpendsContract(ctx, t, BtcContract.RedeemInput(
               BtcContract.ContractScript(t), sig, pubkey, SecretOf(h, blob)))
  {
    HashExact(h, request, id, now, blob, request', id', now', blob');
    AcceptedHash(h, request, id, now, blob);
    Spending.RedeemInputExact(ctx, t, sig, pubkey, SecretOf(h, blob));
  }
}
