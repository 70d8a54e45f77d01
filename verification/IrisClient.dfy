/** Circle Iris lookups: which attested bytes are accepted in place of the source-observed message. */
module IrisClient {
  import opened Wrappers
  import opened Hex
  import opened Decimal
  import opened Classify

  const MIN_ATTESTATION_BYTES: nat := 65
  const MIN_BURN_MESSAGE_BYTES: nat := 376
  const MSG_NONCE_OFFSET: nat := 12
  const MSG_NONCE_LENGTH: nat := 32
  const MSG_FINALITY_EXECUTED_OFFSET: nat := 144
  const MSG_FINALITY_EXECUTED_LENGTH: nat := 4
  const MSG_FEE_EXECUTED_OFFSET: nat := 312
  const MSG_FEE_EXECUTED_LENGTH: nat := 32
  const MSG_EXPIRATION_BLOCK_OFFSET: nat := 344
  const MSG_EXPIRATION_BLOCK_LENGTH: nat := 32
  const MOCK_ATTESTATION := "0x"

  predicate IsPlausibleHexBytes(s: Option<string>, minBytes: nat) {
    s.Some? && IsHexBytes(s.value) && (|s.value| - 2) / 2 >= minBytes
  }

  // ----- mask comparison -----

  function ZeroHexRange(hex: string, startByte: nat, lenBytes: nat): string {
    Slice(hex, 0, startByte * 2) + Zeros(lenBytes * 2) + SliceFrom(hex, (startByte + lenBytes) * 2)
  }

  function Mask(hex: string): string {
    ZeroHexRange(
      ZeroHexRange(
        ZeroHexRange(
          ZeroHexRange(hex, MSG_NONCE_OFFSET, MSG_NONCE_LENGTH),
          MSG_FINALITY_EXECUTED_OFFSET, MSG_FINALITY_EXECUTED_LENGTH),
        MSG_FEE_EXECUTED_OFFSET, MSG_FEE_EXECUTED_LENGTH),
      MSG_EXPIRATION_BLOCK_OFFSET, MSG_EXPIRATION_BLOCK_LENGTH)
  }

  predicate IrisMessageMatches(localHex: string, irisHex: string) {
    var a, b := Norm(localHex), Norm(irisHex);
    |a| == |b| && Mask(a) == Mask(b)
  }

  /** Digit d belongs to bytes 12-44, 144-148, 312-344 or 344-376: the slots Circle fills. */
  predicate InCircleSlot(d: nat) {
    24 <= d < 88 || 288 <= d < 296 || 624 <= d < 688 || 688 <= d < 752
  }

  /** What a match is for: equal lengths and equal digits everywhere outside the four slots. */
  ghost predicate SameOutsideSlots(localHex: string, irisHex: string) {
    var a, b := Norm(localHex), Norm(irisHex);
    |a| == |b| && forall d: nat :: d < |a| && !InCircleSlot(d) ==> a[d] == b[d]
  }

  /** One masked range, on a string of any length: a short string grows, and no digit moves. */
  lemma ZeroRangeKeeps(h: string, start: nat, len: nat)
    ensures |ZeroHexRange(h, start, len)| >= |h|
    ensures forall d: nat :: d < |h| && !(start * 2 <= d < (start + len) * 2) ==>
              ZeroHexRange(h, start, len)[d] == h[d]
  {
    var cut := Min(start * 2, |h|);
    var z := ZeroHexRange(h, start, len);
    assert forall d: nat :: d < |h| && (start + len) * 2 <= d ==>
        z[d] == SliceFrom(h, (start + len) * 2)[d - cut - len * 2];
  }

  lemma ZeroRangeForgets(a: string, b: string, start: nat, len: nat)
    requires |a| == |b|
    ensures |ZeroHexRange(a, start, len)| == |ZeroHexRange(b, start, len)|
    ensures forall d: nat :: d < |ZeroHexRange(a, start, len)| ==>
              (d < |a| && !(start * 2 <= d < (start + len) * 2) && a[d] != b[d])
              || ZeroHexRange(a, start, len)[d] == ZeroHexRange(b, start, len)[d]
  {
    ZeroRangeKeeps(a, start, len);
    ZeroRangeKeeps(b, start, len);
    var cut := Min(start * 2, |a|);
    var za, zb := ZeroHexRange(a, start, len), ZeroHexRange(b, start, len);
    assert forall d: nat :: cut <= d < cut + len * 2 ==> za[d] == '0' && zb[d] == '0';
  }

  lemma MaskKeeps(h: string)
    ensures |Mask(h)| >= |h|
    ensures forall d: nat :: d < |h| && !InCircleSlot(d) ==> Mask(h)[d] == h[d]
  {
    var h1 := ZeroHexRange(h, 12, 32);
    var h2 := ZeroHexRange(h1, 144, 4);
    var h3 := ZeroHexRange(h2, 312, 32);
    ZeroRangeKeeps(h, 12, 32);
    ZeroRangeKeeps(h1, 144, 4);
    ZeroRangeKeeps(h2, 312, 32);
    ZeroRangeKeeps(h3, 344, 32);
  }

  lemma MaskForgets(a: string, b: string)
    requires |a| == |b|
    requires forall d: nat :: d < |a| && !InCircleSlot(d) ==> a[d] == b[d]
    ensures Mask(a) == Mask(b)
  {
    var a1, b1 := ZeroHexRange(a, 12, 32), ZeroHexRange(b, 12, 32);
    var a2, b2 := ZeroHexRange(a1, 144, 4), ZeroHexRange(b1, 144, 4);
    var a3, b3 := ZeroHexRange(a2, 312, 32), ZeroHexRange(b2, 312, 32);
    ZeroRangeForgets(a, b, 12, 32);
    ZeroRangeForgets(a1, b1, 144, 4);
    ZeroRangeForgets(a2, b2, 312, 32);
    ZeroRangeForgets(a3, b3, 344, 32);
  }

  /** The nested masks accept exactly the messages that agree outside the slots, at every length. */
  lemma MatchIsPointwise(localHex: string, irisHex: string)
    ensures IrisMessageMatches(localHex, irisHex) <==> SameOutsideSlots(localHex, irisHex)
  {
    var a, b := Norm(localHex), Norm(irisHex);
    if SameOutsideSlots(localHex, irisHex) {
      MaskForgets(a, b);
    }
    if IrisMessageMatches(localHex, irisHex) {
      MaskKeeps(a);
      MaskKeeps(b);
      assert forall d: nat :: d < |a| && !InCircleSlot(d) ==> a[d] == Mask(a)[d] == Mask(b)[d] == b[d];
    }
  }

  lemma MatchIsEquivalence(a: string, b: string, c: string)
    ensures IrisMessageMatches(a, a)
    ensures IrisMessageMatches(a, b) == IrisMessageMatches(b, a)
    ensures IrisMessageMatches(a, b) && IrisMessageMatches(b, c) ==> IrisMessageMatches(a, c)
  {
  }

  /** Equal digits on a slot-free range give the same lower-case slice and the same value. */
  lemma SliceAgrees(a: string, b: string, from: nat, to: nat)
    requires SameOutsideSlots(a, b) && from <= to
    requires forall d: nat :: from <= d < to ==> !InCircleSlot(d)
    requires AllHex(Strip0x(a)) && AllHex(Strip0x(b))
    ensures Lower(Slice(Strip0x(a), from, to)) == Lower(Slice(Strip0x(b), from, to))
    ensures HexVal(Slice(Strip0x(a), from, to)) == HexVal(Slice(Strip0x(b), from, to))
  {
    var x, y := Slice(Strip0x(a), from, to), Slice(Strip0x(b), from, to);
    assert |Strip0x(a)| == |Norm(a)| == |Norm(b)| == |Strip0x(b)|;
    forall i | 0 <= i < |x| ensures Lower(x)[i] == Lower(y)[i] {
      assert Norm(a)[from + i] == Norm(b)[from + i];
    }
    assert Lower(x) == Lower(y);
    HexValLower(x, y);
  }

  /** Classification reads nothing but the length and three fields of the body and header. */
  lemma ClassifyReads(a: string, b: string, known: set<string>, hookRouter: Option<string>)
    requires AllHex(Strip0x(a)) && AllHex(Strip0x(b)) && |Strip0x(a)| == |Strip0x(b)|
    requires BodyVersionOf(Strip0x(a)) == BodyVersionOf(Strip0x(b))
    requires MintRecipientOf(Strip0x(a)) == MintRecipientOf(Strip0x(b))
    requires DestinationCallerOf(Strip0x(a)) == DestinationCallerOf(Strip0x(b))
    ensures ClassifyMessageForRelay(a, known, hookRouter) == ClassifyMessageForRelay(b, known, hookRouter)
  {
  }

  /** Replacing a message by a matching one changes neither its classification nor its domains. */
  lemma MatchPreservesMeaning(a: string, b: string, known: set<string>, hookRouter: Option<string>)
    requires IrisMessageMatches(a, b)
    requires AllHex(Strip0x(a)) && AllHex(Strip0x(b))
    ensures |Strip0x(a)| == |Strip0x(b)|
    ensures ClassifyMessageForRelay(a, known, hookRouter) == ClassifyMessageForRelay(b, known, hookRouter)
    ensures Uint32At(Strip0x(a), 4) == Uint32At(Strip0x(b), 4)
    ensures Uint32At(Strip0x(a), 8) == Uint32At(Strip0x(b), 8)
  {
    assert SameOutsideSlots(a, b) && |Strip0x(a)| == |Strip0x(b)| by {
      MatchIsPointwise(a, b);
      assert |Strip0x(a)| == |Norm(a)| == |Norm(b)| == |Strip0x(b)|;
    }
    assert Uint32At(Strip0x(a), 4) == Uint32At(Strip0x(b), 4) by { SliceAgrees(a, b, 8, 16); }
    assert Uint32At(Strip0x(a), 8) == Uint32At(Strip0x(b), 8) by { SliceAgrees(a, b, 16, 24); }
    assert ClassifyMessageForRelay(a, known, hookRouter) == ClassifyMessageForRelay(b, known, hookRouter) by {
      SliceAgrees(a, b, 296, 304);
      SliceAgrees(a, b, 368, 432);
      SliceAgrees(a, b, 216, 280);
      ClassifyReads(a, b, known, hookRouter);
    }
  }

  /** maxFee (bytes 280-312) lies between two slots but in none of them. */
  lemma MaxFeeIsCompared(localHex: string, irisHex: string, d: nat)
    requires 560 <= d < 624 && d < |Norm(localHex)| && d < |Norm(irisHex)|
    requires Norm(localHex)[d] != Norm(irisHex)[d]
    ensures !IrisMessageMatches(localHex, irisHex)
  {
    MatchIsPointwise(localHex, irisHex);
  }

  // ----- fetch -----

  datatype IrisEntry = IrisEntry(attestation: Option<string>, message: Option<string>, status: Option<string>)

  /** The body of a reply: not JSON, JSON null, or an object whose message list may be absent. */
  datatype Body = NotJson | JsonNull | Messages(entries: seq<IrisEntry>)

  datatype HttpReply = NetworkFailure(reason: string) | Reply(status: nat, body: Body)

  datatype AttestationResult =
    | Complete(attestation: string, message: string)
    | Pending(detail: Option<string>)
    | Error(problem: string)
    | Thrown // fetch itself rejects: the body is JSON null

  /** messages.find: the first entry whose message matches. */
  function FirstMatch(expected: string, entries: seq<IrisEntry>): Option<IrisEntry> {
    if entries == [] then None
    else if entries[0].message.Some? && IrisMessageMatches(expected, entries[0].message.value) then Some(entries[0])
    else FirstMatch(expected, entries[1..])
  }

  function SelectEntry(expected: string, entries: seq<IrisEntry>): Option<IrisEntry>
    requires entries != []
  {
    if |entries| == 1 then Some(entries[0]) else FirstMatch(expected, entries)
  }

  function JudgeEntry(expected: string, e: IrisEntry): AttestationResult {
    if e.status == Some("complete") && e.attestation.Some? && e.attestation.value != "" then
      if !IsPlausibleHexBytes(e.attestation, MIN_ATTESTATION_BYTES) then Error("implausible attestation bytes")
      else if !IsPlausibleHexBytes(e.message, MIN_BURN_MESSAGE_BYTES) then Error("implausible message bytes")
      else if !IrisMessageMatches(expected, e.message.value) then Error("Iris message does not match observed bytes")
      else Complete(e.attestation.value, e.message.value)
    else Pending(if e.status.Some? then e.status else Some("unknown"))
  }

  function Fetch(expected: string, reply: HttpReply): AttestationResult {
    match reply
    case NetworkFailure(reason) => Error("network: " + reason)
    case Reply(status, body) =>
      if status == 404 then Pending(Some("not yet indexed"))
      else if !(200 <= status <= 299) then Error("http " + Show(status))
      else match body
        case NotJson => Error("unparseable body")
        case JsonNull => Thrown
        case Messages(entries) =>
          if entries == [] then Pending(Some("no messages"))
          else
            var chosen := SelectEntry(expected, entries);
            if chosen.None? then Error("no matching message in Iris response")
            else JudgeEntry(expected, chosen.value)
  }

  function MockFetch(expected: string): AttestationResult { Complete(MOCK_ATTESTATION, expected) }

  /** An entry that may be broadcast in place of the observed bytes. */
  ghost predicate Trustworthy(expected: string, e: IrisEntry) {
    && e.status == Some("complete")
    && e.attestation.Some? && IsHexBytes(e.attestation.value) && |e.attestation.value| >= 2 + 2 * 65
    && e.message.Some? && IsHexBytes(e.message.value) && |e.message.value| >= 2 + 2 * 376
    && SameOutsideSlots(expected, e.message.value)
  }

  /** Entry i agrees with the observed bytes and no earlier entry does. */
  ghost predicate FirstAgreeing(expected: string, entries: seq<IrisEntry>, i: int) {
    && 0 <= i < |entries|
    && Agrees(expected, entries[i])
    && forall j :: 0 <= j < i ==> !Agrees(expected, entries[j])
  }

  ghost predicate Agrees(expected: string, e: IrisEntry) {
    e.message.Some? && SameOutsideSlots(expected, e.message.value)
  }

  lemma {:induction false} FirstMatchIsFirst(expected: string, entries: seq<IrisEntry>)
    ensures FirstMatch(expected, entries).None? ==> forall e :: e in entries ==> !Agrees(expected, e)
    ensures FirstMatch(expected, entries).Some? ==>
              exists i :: FirstAgreeing(expected, entries, i)
                && FirstMatch(expected, entries) == Some(entries[i])
  {
    if entries != [] {
      var rest := entries[1..];
      if entries[0].message.Some? {
        MatchIsPointwise(expected, entries[0].message.value);
      }
      FirstMatchIsFirst(expected, rest);
      if Agrees(expected, entries[0]) {
        assert FirstAgreeing(expected, entries, 0);
      } else if FirstMatch(expected, rest).Some? {
        var i :| FirstAgreeing(expected, rest, i) && FirstMatch(expected, rest) == Some(rest[i]);
        assert forall j :: 0 < j < |entries| ==> entries[j] == rest[j - 1];
        assert FirstAgreeing(expected, entries, i + 1);
      }
    }
  }

  lemma JudgedTrustworthy(expected: string, e: IrisEntry)
    ensures JudgeEntry(expected, e).Complete? <==> Trustworthy(expected, e)
    ensures Trustworthy(expected, e) ==>
              JudgeEntry(expected, e) == Complete(e.attestation.value, e.message.value)
  {
    if e.message.Some? {
      MatchIsPointwise(expected, e.message.value);
    }
  }

  lemma FirstMatchIs(expected: string, entries: seq<IrisEntry>, i: int)
    requires FirstAgreeing(expected, entries, i)
    ensures FirstMatch(expected, entries) == Some(entries[i])
  {
    FirstMatchIsFirst(expected, entries);
    assert entries[i] in entries;
    var k :| FirstAgreeing(expected, entries, k) && FirstMatch(expected, entries) == Some(entries[k]);
    assert !(k < i) && !(i < k);
  }

  /** A trustworthy first agreeing entry is never passed over, and its own bytes are returned. */
  lemma TrustworthyIsAccepted(expected: string, status: nat, entries: seq<IrisEntry>, i: int)
    requires 200 <= status <= 299
    requires FirstAgreeing(expected, entries, i) && Trustworthy(expected, entries[i])
    ensures Fetch(expected, Reply(status, Messages(entries)))
         == Complete(entries[i].attestation.value, entries[i].message.value)
  {
    FirstMatchIs(expected, entries, i);
    assert SelectEntry(expected, entries) == Some(entries[i]);
    JudgedTrustworthy(expected, entries[i]);
  }

  /** A lookup completes exactly when a success reply's first agreeing entry is trustworthy. */
  lemma FetchCompletesExactly(expected: string, reply: HttpReply)
    ensures Fetch(expected, reply).Complete? <==>
            && reply.Reply? && 200 <= reply.status <= 299 && reply.body.Messages?
            && exists i :: FirstAgreeing(expected, reply.body.entries, i)
                 && Trustworthy(expected, reply.body.entries[i])
  {
    if reply.Reply? && 200 <= reply.status <= 299 && reply.body.Messages? && reply.body.entries != [] {
      var entries := reply.body.entries;
      FirstMatchIsFirst(expected, entries);
      if Fetch(expected, reply).Complete? {
        var chosen := SelectEntry(expected, entries).value;
        JudgedTrustworthy(expected, chosen);
        if |entries| == 1 {
          assert FirstAgreeing(expected, entries, 0);
        }
      } else if i :| FirstAgreeing(expected, entries, i) && Trustworthy(expected, entries[i]) {
        TrustworthyIsAccepted(expected, reply.status, entries, i);
      }
    }
  }

  /** Accepted bytes are hex, long enough to decode, and agree with the observed message. */
  lemma FetchIsSafe(expected: string, reply: HttpReply)
    requires Fetch(expected, reply).Complete?
    ensures var r := Fetch(expected, reply);
            && IsHexBytes(r.message) && |r.message| >= 2 + 2 * 376
            && IrisMessageMatches(expected, r.message)
            && IsHexBytes(r.attestation) && |r.attestation| >= 2 + 2 * 65
  {
  }

  /** The entry a lookup goes by: the only one, or the first that agrees with the observed bytes. */
  ghost predicate GoesBy(expected: string, entries: seq<IrisEntry>, e: IrisEntry) {
    if |entries| == 1 then e == entries[0] else exists i :: FirstAgreeing(expected, entries, i) && e == entries[i]
  }

  /** Circle has not finished with the entry. */
  predicate Unfinished(e: IrisEntry) { e.status != Some("complete") || e.attestation.None? || e.attestation.value == "" }

  lemma SelectedGoesBy(expected: string, entries: seq<IrisEntry>, e: IrisEntry)
    requires entries != []
    ensures SelectEntry(expected, entries) == Some(e) <==> GoesBy(expected, entries, e)
  {
    FirstMatchIsFirst(expected, entries);
    if |entries| > 1 {
      if i :| FirstAgreeing(expected, entries, i) && e == entries[i] {
        FirstMatchIs(expected, entries, i);
      }
    }
  }

  /** The error of a finished entry names the first that is wrong: its attestation, its message, or whose message it is. */
  lemma JudgedWrong(expected: string, e: IrisEntry)
    requires !Unfinished(e) && !Trustworthy(expected, e)
    ensures JudgeEntry(expected, e) == Error(
              if !(IsHexBytes(e.attestation.value) && |e.attestation.value| >= 2 + 2 * 65) then "implausible attestation bytes"
              else if !(e.message.Some? && IsHexBytes(e.message.value) && |e.message.value| >= 2 + 2 * 376)
              then "implausible message bytes"
              else "Iris message does not match observed bytes")
  {
    JudgedTrustworthy(expected, e);
  }

  /** A lookup that completed its request but has nothing to show yet. */
  ghost predicate NothingYet(expected: string, body: Body) {
    body.Messages? && (body.entries == [] || exists e :: GoesBy(expected, body.entries, e) && Unfinished(e))
  }

  /**
   * Why a lookup does not complete: it is still pending when the transaction is not indexed, no message is listed, or
   * the entry it goes by is unfinished; a JSON null makes it throw; all else is an error, whose text is kept in the row.
   */
  lemma FetchExplained(expected: string, reply: HttpReply)
    ensures var r, ok := Fetch(expected, reply), reply.Reply? && 200 <= reply.status <= 299;
            && (r.Thrown? <==> ok && reply.body.JsonNull?)
            && (r.Pending? <==> (reply.Reply? && reply.status == 404) || (ok && NothingYet(expected, reply.body)))
            && (reply.NetworkFailure? ==> r == Error("network: " + reply.reason))
            && (reply.Reply? && reply.status == 404 ==> r == Pending(Some("not yet indexed")))
            && (ok && reply.body == Messages([]) ==> r == Pending(Some("no messages")))
            && (reply.Reply? && reply.status != 404 && !ok ==> r == Error("http " + Show(reply.status)))
  {
    if reply.Reply? && 200 <= reply.status <= 299 && reply.body.Messages? && reply.body.entries != [] {
      var entries := reply.body.entries;
      var chosen := SelectEntry(expected, entries);
      forall e ensures chosen == Some(e) <==> GoesBy(expected, entries, e) {
        SelectedGoesBy(expected, entries, e);
      }
      if chosen.Some? {
        assert GoesBy(expected, entries, chosen.value);
      }
    }
  }
}
