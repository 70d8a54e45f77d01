/** Fail-closed classification of CCTP MessageSent bytes and the header fields of a message. */
module Classify {
  import opened Wrappers
  import opened Hex

  // Byte offsets in a MessageV2 envelope.
  const MSG_DEST_CALLER_OFFSET: nat := 108
  const MSG_DEST_CALLER_LENGTH: nat := 32
  const MSG_BODY_OFFSET: nat := 148
  const MINT_RECIPIENT_ABSOLUTE_OFFSET: nat := 184
  const MINT_RECIPIENT_LENGTH: nat := 32
  const MIN_MESSAGE_LENGTH_BYTES: nat := 376
  const BURN_MESSAGE_VERSION: nat := 1

  datatype SkipReason =
    | UnparseableHex
    | TooShort(byteLen: nat)
    | BodyVersion(version: nat)
    | NoKnownRecipients
    | UnknownRecipient(mintRecipient: string)
    | ForeignCaller(callerPrefix: string)

  datatype ClassifyResult = Relay(mintRecipient: string) | Skip(reason: SkipReason)

  function ZeroCaller(): string { "0x" + Zeros(64) }

  /** zeroPadValue(address, 32).toLowerCase() */
  function PadAddress(address: string): string {
    var body := Norm(address);
    "0x" + Zeros(if |body| < 64 then 64 - |body| else 0) + body
  }

  function BodyVersionOf(hex: string): nat
    requires AllHex(hex)
  {
    HexVal(Slice(hex, MSG_BODY_OFFSET * 2, (MSG_BODY_OFFSET + 4) * 2))
  }

  function MintRecipientOf(hex: string): string {
    "0x" + Lower(Slice(hex, MINT_RECIPIENT_ABSOLUTE_OFFSET * 2,
                       (MINT_RECIPIENT_ABSOLUTE_OFFSET + MINT_RECIPIENT_LENGTH) * 2))
  }

  function DestinationCallerOf(hex: string): string {
    "0x" + Lower(Slice(hex, MSG_DEST_CALLER_OFFSET * 2, (MSG_DEST_CALLER_OFFSET + MSG_DEST_CALLER_LENGTH) * 2))
  }

  function ClassifyMessageForRelay(messageHex: string, knownRecipients: set<string>,
                                   hookRouter: Option<string>): ClassifyResult {
    var hex := Strip0x(messageHex);
    if !AllHex(hex) then Skip(UnparseableHex)
    else if |hex| / 2 < MIN_MESSAGE_LENGTH_BYTES then Skip(TooShort(|hex| / 2))
    else if BodyVersionOf(hex) != BURN_MESSAGE_VERSION then Skip(BodyVersion(BodyVersionOf(hex)))
    else if knownRecipients == {} then Skip(NoKnownRecipients)
    else if MintRecipientOf(hex) !in knownRecipients then Skip(UnknownRecipient(MintRecipientOf(hex)))
    else
      var caller := DestinationCallerOf(hex);
      if caller != ZeroCaller() && hookRouter.Some? && hookRouter.value != ""
         && caller != PadAddress(hookRouter.value)
      then Skip(ForeignCaller(Slice(caller, 0, 20)))
      else Relay(MintRecipientOf(hex))
  }

  datatype MessageHeader = MessageHeader(sourceDomain: nat, destinationDomain: nat, nonce: string)

  /** uint32At: four bytes, most significant first. */
  function Uint32At(hex: string, offset: nat): nat
    requires AllHex(hex)
  {
    HexVal(Slice(hex, offset * 2, (offset + 4) * 2))
  }

  /** The actor's decoder: throws (None) on anything but whole bytes covering the envelope header. */
  function DecodeMessageHeader(messageHex: string): Option<MessageHeader> {
    if !IsHexBytes(messageHex) || |messageHex| - 2 < MSG_BODY_OFFSET * 2 then None
    else
      var hex := messageHex[2..];
      Some(MessageHeader(Uint32At(hex, 4), Uint32At(hex, 8), "0x" + Lower(Slice(hex, 24, 88))))
  }

  /** The watcher's decoder of the same header: 44 bytes are enough and the nonce keeps its case. */
  function DecodeCctpHeader(messageHex: string): Option<MessageHeader>
    requires AllHex(Strip0x(messageHex))
  {
    var hex := Strip0x(messageHex);
    if |hex| < 88 then None
    else Some(MessageHeader(HexVal(Slice(hex, 8, 16)), HexVal(Slice(hex, 16, 24)), "0x" + Slice(hex, 24, 88)))
  }

  /** Wherever the actor's decoder succeeds, the watcher's finds the same domains and nonce. */
  lemma DecodersAgree(m: string)
    requires IsHexBytes(m) && DecodeMessageHeader(m).Some?
    ensures DecodeCctpHeader(m).Some?
    ensures DecodeCctpHeader(m).value.sourceDomain == DecodeMessageHeader(m).value.sourceDomain
    ensures DecodeCctpHeader(m).value.destinationDomain == DecodeMessageHeader(m).value.destinationDomain
    ensures Lower(DecodeCctpHeader(m).value.nonce) == DecodeMessageHeader(m).value.nonce
  {
    var n := DecodeCctpHeader(m).value.nonce;
    assert Lower(n) == "0x" + Lower(n[2..]);
  }

  // ----- what is relayable, in terms of the digits -----

  /** Whole hex, 376 bytes at least, and the four bytes at offset 148 are the number 1. */
  predicate IsBurnMessage(hex: string) {
    AllHex(hex) && |hex| >= 752 && hex[296..304] == "00000001"
  }

  /** The 32 bytes at offset 184, in lower case and behind 0x, are a known recipient. */
  predicate NamesKnownRecipient(hex: string, knownRecipients: set<string>)
    requires |hex| >= 752
  {
    "0x" + Lower(hex[368..432]) in knownRecipients
  }

  /** The word is the address with zeros in front. */
  predicate IsPadded(word: string, address: string) {
    exists n :: 0 <= n <= |word| && word[n..] == address && forall i :: 0 <= i < n ==> word[i] == '0'
  }

  /** The 32 bytes at offset 108 leave the delivery to anyone, or to us, as far as we know who we are. */
  predicate OpenToUs(hex: string, hookRouter: Option<string>)
    requires |hex| >= 752
  {
    || (forall i :: 216 <= i < 280 ==> hex[i] == '0')
    || hookRouter.None? || hookRouter.value == ""
    || IsPadded(Lower(hex[216..280]), Norm(hookRouter.value))
  }

  predicate RelayableBytes(messageHex: string, knownRecipients: set<string>, hookRouter: Option<string>) {
    var hex := Strip0x(messageHex);
    IsBurnMessage(hex) && NamesKnownRecipient(hex, knownRecipients) && OpenToUs(hex, hookRouter)
  }

  /** The reason names the first check that the message fails; all before it hold. */
  predicate FirstFailure(messageHex: string, knownRecipients: set<string>, hookRouter: Option<string>, reason: SkipReason) {
    var hex := Strip0x(messageHex);
    match reason
    case UnparseableHex => !AllHex(hex)
    case TooShort(byteLen) => AllHex(hex) && |hex| < 752 && byteLen == |hex| / 2
    case BodyVersion(version) =>
      AllHex(hex) && |hex| >= 752 && hex[296..304] != "00000001" && version == HexVal(hex[296..304])
    case NoKnownRecipients => IsBurnMessage(hex) && knownRecipients == {}
    case UnknownRecipient(recipient) =>
      && IsBurnMessage(hex) && knownRecipients != {} && !NamesKnownRecipient(hex, knownRecipients)
      && recipient == "0x" + Lower(hex[368..432])
    case ForeignCaller(prefix) =>
      && IsBurnMessage(hex) && NamesKnownRecipient(hex, knownRecipients) && !OpenToUs(hex, hookRouter)
      && prefix == "0x" + Lower(hex[216..234])
  }

  lemma {:induction false} ZeroHexVal(s: string)
    requires AllHex(s)
    ensures HexVal(s) == 0 <==> forall i :: 0 <= i < |s| ==> s[i] == '0'
  {
    if s != "" {
      ZeroHexVal(s[..|s| - 1]);
    }
  }

  lemma OneHexVal(s: string)
    requires AllHex(s) && s != ""
    ensures HexVal(s) == 1 <==> s[|s| - 1] == '1' && forall i :: 0 <= i < |s| - 1 ==> s[i] == '0'
  {
    ZeroHexVal(s[..|s| - 1]);
  }

  lemma VersionOne(hex: string)
    requires AllHex(hex) && |hex| >= 752
    ensures BodyVersionOf(hex) == HexVal(hex[296..304])
    ensures BodyVersionOf(hex) == BURN_MESSAGE_VERSION <==> hex[296..304] == "00000001"
  {
    OneHexVal(hex[296..304]);
  }

  lemma PrefixCancels(a: string, b: string)
    ensures "0x" + a == "0x" + b <==> a == b
  {
    assert ("0x" + a)[2..] == a && ("0x" + b)[2..] == b;
  }

  lemma ZerosInFront(word: string, n: nat, address: string)
    requires n <= |word|
    ensures word == Zeros(n) + address <==> word[n..] == address && forall i :: 0 <= i < n ==> word[i] == '0'
  {
    if word[n..] == address && forall i :: 0 <= i < n ==> word[i] == '0' {
      assert word[..n] == Zeros(n);
      assert word == word[..n] + word[n..];
    }
  }

  lemma PadIsPadded(word: string, address: string)
    requires |word| == 64
    ensures "0x" + word == PadAddress(address) <==> IsPadded(word, Norm(address))
  {
    var body := Norm(address);
    if |body| <= 64 {
      var n := 64 - |body|;
      assert PadAddress(address) == "0x" + (Zeros(n) + body);
      PrefixCancels(word, Zeros(n) + body);
      ZerosInFront(word, n, body);
      assert IsPadded(word, body) ==> word[n..] == body && forall i :: 0 <= i < n ==> word[i] == '0';
    } else {
      assert |PadAddress(address)| == 2 + |body|;
    }
  }

  lemma CallerIsOpen(hex: string, hookRouter: Option<string>)
    requires |hex| >= 752
    ensures var caller := DestinationCallerOf(hex);
            (caller == ZeroCaller() || hookRouter.None? || hookRouter.value == "" || caller == PadAddress(hookRouter.value))
            <==> OpenToUs(hex, hookRouter)
    ensures Slice(DestinationCallerOf(hex), 0, 20) == "0x" + Lower(hex[216..234])
  {
    var word := Lower(hex[216..280]);
    assert DestinationCallerOf(hex) == "0x" + word;
    assert Slice("0x" + word, 0, 20) == "0x" + word[..18] && word[..18] == Lower(hex[216..234]);
    if hookRouter.Some? {
      PadIsPadded(word, hookRouter.value);
    }
    if "0x" + word == ZeroCaller() {
      assert word == ZeroCaller()[2..] == Zeros(64);
      forall i | 216 <= i < 280 ensures hex[i] == '0' {
        assert word[i - 216] == '0' == LowerChar(hex[i]);
      }
    }
    if forall i :: 216 <= i < 280 ==> hex[i] == '0' {
      assert word == Zeros(64);
    }
  }

  /** A message is relayed exactly when its bytes pass every check; otherwise the reason is the first one they fail. */
  lemma ClassifiedExactly(messageHex: string, knownRecipients: set<string>, hookRouter: Option<string>)
    ensures var result := ClassifyMessageForRelay(messageHex, knownRecipients, hookRouter);
            && (result.Relay? <==> RelayableBytes(messageHex, knownRecipients, hookRouter))
            && (result.Relay? ==> result.mintRecipient == "0x" + Lower(Strip0x(messageHex)[368..432]))
    ensures forall reason :: ClassifyMessageForRelay(messageHex, knownRecipients, hookRouter) == Skip(reason)
                        <==> FirstFailure(messageHex, knownRecipients, hookRouter, reason)
  {
    var hex := Strip0x(messageHex);
    if AllHex(hex) && |hex| >= 752 {
      VersionOne(hex);
      CallerIsOpen(hex, hookRouter);
      assert MintRecipientOf(hex) == "0x" + Lower(hex[368..432]);
    }
  }
}
