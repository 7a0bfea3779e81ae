/** The check a broker's answer to a delayed swap must pass before the swap goes on. */
module PriceCheck {
  import opened Common
  import opened Swaps
  import opened Decimal
  import Costs

  datatype Quote = Quote(send: int, receive: int)

  datatype CheckError = Corrupted | OutOfBounds | UnfavourablePrice

  /** Neither sends more than offered nor, cross-multiplied, at a worse price. */
  predicate Favourable(offer: Quote, fill: Quote) {
    && fill.send <= offer.send
    && fill.receive * offer.send >= offer.receive * fill.send
  }

  function ReadQuote(blob: SwapBlob): Option<Quote> {
    var send, receive := Parse(blob.sendAmount), Parse(blob.receiveAmount);
    if send.Some? && receive.Some? then Some(Quote(send.value, receive.value)) else None
  }

  /** A minimum that does not parse counts as zero. */
  function ReadMinimum(blob: SwapBlob): int {
    match Parse(blob.minimumReceiveAmount)
    case Some(n) => n
    case None => 0
  }

  predicate Accepts(partial: SwapBlob, filled: SwapBlob) {
    && ReadQuote(partial).Some? && ReadQuote(filled).Some?
    && ReadQuote(filled).value.receive >= ReadMinimum(partial)
    && Favourable(ReadQuote(partial).value, ReadQuote(filled).value)
  }

  method VerifyDelaySwap(partial: SwapBlob, filled: SwapBlob) returns (r: Result<SwapBlob, CheckError>)
    ensures r.Ok? <==> Accepts(partial, filled)
    ensures r.Ok? ==> r.value == filled.(delay := false)
    ensures r == Err(Corrupted) <==> ReadQuote(partial).None? || ReadQuote(filled).None?
    ensures r == Err(OutOfBounds) <==>
              && ReadQuote(partial).Some? && ReadQuote(filled).Some?
              && (ReadQuote(filled).value.receive < ReadMinimum(partial)
                  || ReadQuote(filled).value.send > ReadQuote(partial).value.send)
  {
    var minimum := Parse(partial.minimumReceiveAmount);
    var initialMinReceive := if minimum.Some? then minimum.value else 0;
    var initialSend := Parse(partial.sendAmount);
    if initialSend.None? {
      return Err(Corrupted);
    }
    var initialReceive := Parse(partial.receiveAmount);
    if initialReceive.None? {
      return Err(Corrupted);
    }
    var filledSend := Parse(filled.sendAmount);
    if filledSend.None? {
      return Err(Corrupted);
    }
    var filledReceive := Parse(filled.receiveAmount);
    if filledReceive.None? {
      return Err(Corrupted);
    }
    if filledReceive.value < initialMinReceive || initialSend.value < filledSend.value {
      return Err(OutOfBounds);
    }
    var lhs, rhs := filledReceive.value, initialReceive.value;
    lhs := lhs * initialSend.value;
    rhs := rhs * filledSend.value;
    if lhs < rhs {
      return Err(UnfavourablePrice);
    }
    return Ok(filled.(delay := false));
  }

  /**
   Among the fills at an acceptable price and size, exactly those that receive at least the
   minimum are accepted. A minimum that cannot be read turns down only fills that receive less
   than nothing.
   */
  lemma MinimumExact(partial: SwapBlob, filled: SwapBlob)
    requires ReadQuote(partial).Some? && ReadQuote(filled).Some?
    ensures Accepts(partial, filled) <==>
              && Favourable(ReadQuote(partial).value, ReadQuote(filled).value)
              && (match Parse(partial.minimumReceiveAmount)
                  case Some(least) => ReadQuote(filled).value.receive >= least
                  case None => ReadQuote(filled).value.receive >= 0)
  {
  }

  /** The offer itself, with any minimum up to what it asks for, is an acceptable fill; below the minimum none is. */
  lemma MinimumMatters(partial: SwapBlob, filled: SwapBlob, least: int)
    requires partial.minimumReceiveAmount == Print(least)
    ensures ReadQuote(partial).Some? ==> (Accepts(partial, partial) <==> ReadQuote(partial).value.receive >= least)
    ensures Parse(filled.receiveAmount).Some? && Parse(filled.receiveAmount).value < least ==> !Accepts(partial, filled)
  {
    ParsePrint(least);
  }

  /** Among offers with something to send, acceptability is a preorder. */
  lemma FavourableIsPreorder(a: Quote, b: Quote, c: Quote)
    requires a.send > 0 && b.send > 0 && c.send > 0
    ensures Favourable(a, a)
    ensures Favourable(a, b) && Favourable(b, c) ==> Favourable(a, c)
  {
    if Favourable(a, b) && Favourable(b, c) {
      FavourableTransitive(a, b, c);
    }
  }

  lemma FavourableTransitive(a: Quote, b: Quote, c: Quote)
    requires a.send > 0 && b.send > 0 && c.send > 0
    requires Favourable(a, b) && Favourable(b, c)
    ensures Favourable(a, c)
  {
    calc {
      (c.receive * a.send) * b.send;
      (c.receive * b.send) * a.send;
    >= { Costs.MulMono(b.receive * c.send, c.receive * b.send, a.send); }
      (b.receive * c.send) * a.send;
      (b.receive * a.send) * c.send;
    >= { Costs.MulMono(a.receive * b.send, b.receive * a.send, c.send); }
      (a.receive * b.send) * c.send;
      (a.receive * c.send) * b.send;
    }
    MulCancel(c.receive * a.send, a.receive * c.send, b.send);
  }

  lemma MulStrict(x: int, y: int, m: int)
    requires x < y && m > 0
    ensures x * m < y * m
  {
  }

  lemma MulCancel(x: int, y: int, m: int)
    requires x * m >= y * m && m > 0
    ensures x >= y
  {
    if x < y {
      MulStrict(x, y, m);
    }
  }

  /** The cross-multiplied test means what it should: per unit sent, the fill pays at least the offer. */
  lemma NeverAWorseRate(offer: Quote, fill: Quote)
    requires offer.send > 0 && fill.send > 0
    ensures Favourable(offer, fill) <==>
              && fill.send <= offer.send
              && fill.receive as real / fill.send as real >= offer.receive as real / offer.send as real
  {
    var fs, fr, os, or := fill.send as real, fill.receive as real, offer.send as real, offer.receive as real;
    assert (fill.receive * offer.send) as real == fr * os;
    assert (offer.receive * fill.send) as real == or * fs;
    var x, y := fr / fs, or / os;
    assert fr == x * fs && or == y * os;
    assert fr * os == x * (fs * os) && or * fs == y * (fs * os);
    RealMul(x, y, fs * os);
  }

  lemma RealMul(x: real, y: real, m: real)
    requires m > 0.0
    ensures x * m >= y * m <==> x >= y
  {
    if x < y {
      assert (y - x) * m > 0.0;
    }
  }

  lemma FavourableHigher(offer: Quote, fill: Quote, receive: int)
    requires Favourable(offer, fill) && offer.send >= 0 && receive >= fill.receive
    ensures Favourable(offer, fill.(receive := receive))
  {
    Costs.MulMono(fill.receive, receive, offer.send);
  }

  lemma RaisedReceiveKept(partial: SwapBlob, filled: SwapBlob, receive: string)
    requires Accepts(partial, filled) && ReadQuote(partial).value.send >= 0
    requires Parse(receive).Some? && Parse(receive).value >= ReadQuote(filled).value.receive
    ensures Accepts(partial, filled.(receiveAmount := receive))
  {
    FavourableHigher(ReadQuote(partial).value, ReadQuote(filled).value, Parse(receive).value);
  }

  /** An offer to send less than nothing, for nothing or less and with a minimum above that, accepts nothing. */
  predicate Hopeless(partial: SwapBlob) {
    ReadQuote(partial).Some? && ReadQuote(partial).value.receive <= 0
    && ReadMinimum(partial) > ReadQuote(partial).value.receive
  }

  lemma HopelessAcceptsNothing(offer: Quote, fill: Quote)
    requires offer.send < 0 && offer.receive <= 0 && fill.receive > offer.receive
    ensures !Favourable(offer, fill)
  {
    if fill.send <= offer.send {
      Costs.MulMono(-offer.send, -fill.send, -offer.receive);
      Costs.MulMono(offer.receive + 1, fill.receive, -offer.send);
      assert fill.receive * offer.send == -(fill.receive * -offer.send);
      assert offer.receive * fill.send == -offer.receive * -fill.send;
    }
  }

  /** Otherwise such an offer accepts some fill at its minimum, or at what it asks for. */
  lemma SomethingAccepted(offer: Quote, minimum: int) returns (fill: Quote)
    requires offer.send < 0 && (offer.receive > 0 || minimum <= offer.receive)
    ensures Favourable(offer, fill) && fill.receive >= minimum
  {
    if minimum <= offer.receive {
      fill := offer;
    } else {
      fill := Quote(offer.send * minimum, minimum);
      Costs.MulMono(1, minimum, -offer.send);
      Costs.MulMono(1, offer.receive, -fill.send);
      assert offer.receive * fill.send == -(offer.receive * -fill.send);
    }
  }

  /** And then not the same fill with a receive amount high enough. */
  lemma TooMuch(offer: Quote, fill: Quote) returns (receive: int)
    requires offer.send < 0
    ensures receive >= fill.receive && !Favourable(offer, fill.(receive := receive))
  {
    var bound := offer.receive * fill.send;
    var size: nat := if bound < 0 then -bound else bound;
    receive := (if fill.receive > 0 then fill.receive else 0) + size + 1;
    Costs.MulMono(1, -offer.send, receive);
    assert receive * offer.send == -(receive * -offer.send);
    assert -offer.send * receive == receive * -offer.send;
  }

  lemma RaisedReceiveLost(partial: SwapBlob) returns (filled: SwapBlob, receive: string)
    requires ReadQuote(partial).Some? && ReadQuote(partial).value.send < 0 && !Hopeless(partial)
    ensures Accepts(partial, filled) && Parse(receive).Some? && Parse(receive).value >= ReadQuote(filled).value.receive
    ensures !Accepts(partial, filled.(receiveAmount := receive))
  {
    var offer := ReadQuote(partial).value;
    var fill := SomethingAccepted(offer, ReadMinimum(partial));
    var more := TooMuch(offer, fill);
    filled := partial.(sendAmount := Print(fill.send), receiveAmount := Print(fill.receive));
    receive := Print(more);
    FavourableParts(partial, filled, fill.send, fill.receive);
    FavourableParts(partial, filled.(receiveAmount := receive), fill.send, more);
    ParsePrint(more);
    ParsePrint(fill.receive);
    ParsePrint(fill.send);
  }

  /** Accepted fills stay accepted when their receive amounts rise. */
  ghost predicate MoreIsFine(partial: SwapBlob) {
    forall filled: SwapBlob, receive: string ::
      Accepts(partial, filled) && Parse(receive).Some? && Parse(receive).value >= ReadQuote(filled).value.receive
      ==> Accepts(partial, filled.(receiveAmount := receive))
  }

  /**
   They do exactly for the offers that send a non-negative amount, and for those that accept
   nothing anyway; the parser also lets negative amounts through.
   */
  lemma RaisingReceive(partial: SwapBlob)
    requires ReadQuote(partial).Some?
    ensures MoreIsFine(partial) <==> ReadQuote(partial).value.send >= 0 || Hopeless(partial)
  {
    if ReadQuote(partial).value.send >= 0 {
      forall filled: SwapBlob, receive: string |
        Accepts(partial, filled) && Parse(receive).Some? && Parse(receive).value >= ReadQuote(filled).value.receive
        ensures Accepts(partial, filled.(receiveAmount := receive))
      {
        RaisedReceiveKept(partial, filled, receive);
      }
    } else if Hopeless(partial) {
      forall filled ensures !Accepts(partial, filled) {
        if ReadQuote(filled).Some? && ReadQuote(filled).value.receive >= ReadMinimum(partial) {
          HopelessAcceptsNothing(ReadQuote(partial).value, ReadQuote(filled).value);
        }
      }
    } else {
      var filled, receive := RaisedReceiveLost(partial);
    }
  }

  lemma FavourableLower(offer: Quote, fill: Quote, send: int)
    requires Favourable(offer, fill) && offer.receive >= 0 && send <= fill.send
    ensures Favourable(offer, fill.(send := send))
  {
    Costs.MulMono(send, fill.send, offer.receive);
  }

  lemma LowerSendKept(partial: SwapBlob, filled: SwapBlob, send: string)
    requires Accepts(partial, filled) && ReadQuote(partial).value.receive >= 0
    requires Parse(send).Some? && Parse(send).value <= ReadQuote(filled).value.send
    ensures Accepts(partial, filled.(sendAmount := send))
  {
    FavourableLower(ReadQuote(partial).value, ReadQuote(filled).value, Parse(send).value);
  }

  /** Far enough below zero, a send amount is at a worse price than any offer that asks for less than nothing. */
  lemma Overshoot(asked: int, sent: nat, received: int) returns (lower: int)
    requires asked < 0
    ensures lower < 0 && received * sent < asked * lower
  {
    var size: nat := if received < 0 then -received else received;
    lower := -(size * sent) - 1;
    Costs.MulMono(received, size, sent);
    Costs.MulMono(1, -asked, -lower);
    assert asked * lower == -asked * -lower;
  }

  lemma FavourableParts(partial: SwapBlob, filled: SwapBlob, send: int, receive: int)
    requires ReadQuote(partial).Some?
    requires filled.sendAmount == Print(send) && filled.receiveAmount == Print(receive)
    ensures Accepts(partial, filled) <==>
              receive >= ReadMinimum(partial) && Favourable(ReadQuote(partial).value, Quote(send, receive))
  {
    ParsePrint(send);
    ParsePrint(receive);
  }

  /** An offer that asks for less than nothing accepts a fill and then not the same fill with less sent. */
  lemma LowerSendLost(partial: SwapBlob) returns (filled: SwapBlob, send: string)
    requires ReadQuote(partial).Some? && ReadQuote(partial).value.send > 0 && ReadQuote(partial).value.receive < 0
    ensures Accepts(partial, filled) && Parse(send).Some? && Parse(send).value <= ReadQuote(filled).value.send
    ensures !Accepts(partial, filled.(sendAmount := send))
  {
    var offer := ReadQuote(partial).value;
    var receive := if ReadMinimum(partial) > offer.receive then ReadMinimum(partial) else offer.receive;
    var lower := Overshoot(offer.receive, offer.send, receive);
    filled := partial.(sendAmount := Print(offer.send), receiveAmount := Print(receive));
    send := Print(lower);
    Costs.MulMono(offer.receive, receive, offer.send);
    FavourableParts(partial, filled, offer.send, receive);
    FavourableParts(partial, filled.(sendAmount := send), lower, receive);
    ParsePrint(lower);
    ParsePrint(offer.send);
  }

  /**
   Sending less keeps every accepted fill accepted exactly for the offers that ask for a
   non-negative amount; the parser also lets negative amounts through.
   */
  lemma LoweringSend(partial: SwapBlob)
    requires ReadQuote(partial).Some? && ReadQuote(partial).value.send > 0
    ensures (forall filled: SwapBlob, send: string ::
               Accepts(partial, filled) && Parse(send).Some? && Parse(send).value <= ReadQuote(filled).value.send
               ==> Accepts(partial, filled.(sendAmount := send)))
            <==> ReadQuote(partial).value.receive >= 0
  {
    if ReadQuote(partial).value.receive >= 0 {
      forall filled: SwapBlob, send: string |
        Accepts(partial, filled) && Parse(send).Some? && Parse(send).value <= ReadQuote(filled).value.send
        ensures Accepts(partial, filled.(sendAmount := send))
      {
        LowerSendKept(partial, filled, send);
      }
    } else {
      var filled, send := LowerSendLost(partial);
    }
  }
}
