/** Stored pool logs decoded into the engine's commitment events, nullifiers and unshields. */
module QuickSyncDecode {
  import opened Wrappers
  import opened Hex
  import opened Decimal

  datatype TokenData = TokenData(tokenType: nat, tokenAddress: string, tokenSubID: nat)

  datatype ShieldPreimage = ShieldPreimage(npk: string, token: TokenData, value: nat)

  datatype ShieldCiphertext = ShieldCiphertext(bundle0: string, bundle1: string, bundle2: string, shieldKey: string)

  datatype CommitmentCiphertext = CommitmentCiphertext(
    ivTag: string, data: seq<string>, senderKey: string, receiverKey: string, annotationData: string, memo: string)

  /** An ABI-decoded pool event. */
  datatype PoolEvent =
    | Shield(treeNumber: nat, startPosition: nat, commitments: seq<ShieldPreimage>,
             shieldCiphertext: seq<ShieldCiphertext>, fees: seq<nat>)
    | Transact(treeNumber: nat, startPosition: nat, hash: seq<string>, ciphertext: seq<CommitmentCiphertext>)
    | Nullified(treeNumber: nat, nullifier: seq<string>)
    | Unshield(toAddress: string, token: TokenData, amount: nat, unshieldFee: nat)

  datatype RawLogRow = RawLogRow(blockNumber: nat, txHash: string, logIndex: nat, event: PoolEvent)

  // ----- formatting -----

  function PadStart(s: string, width: nat): string { Zeros(if |s| < width then width - |s| else 0) + s }

  function HexChar(n: nat): char
    requires n < 16
  {
    if n < 10 then (n + 48) as char else (n + 87) as char
  }

  /** n.toString(16) */
  function ToHex(n: nat): (s: string)
    ensures AllHex(s) && s != ""
  {
    if n < 16 then [HexChar(n)] else ToHex(n / 16) + [HexChar(n % 16)]
  }

  function FormatUint256(hex: string): string {
    var body := Norm(hex);
    if |body| > 64 then body[|body| - 64..] else PadStart(body, 64)
  }

  function NToHex256(n: nat): string { PadStart(ToHex(n), 64) }

  function FormatValue128(n: nat): string { PadStart(ToHex(n), 32) }

  /** BigInt of a hex string with or without prefix; 0 stands for the throw on anything else. */
  function Bi(hex: string): nat { if AllHex(Strip0x(hex)) then HexVal(Strip0x(hex)) else 0 }

  lemma {:induction false} ToHexValue(n: nat)
    ensures HexVal(ToHex(n)) == n
  {
    if n >= 16 {
      ToHexValue(n / 16);
      var s := ToHex(n);
      assert s[..|s| - 1] == ToHex(n / 16);
    } else {
      assert ToHex(n)[..0] == "";
    }
  }

  lemma {:induction false} PadKeepsValue(s: string, k: nat)
    requires AllHex(s)
    ensures AllHex(Zeros(k) + s) && HexVal(Zeros(k) + s) == HexVal(s)
  {
    if s != "" {
      PadKeepsValue(s[..|s| - 1], k);
      assert (Zeros(k) + s)[..|Zeros(k) + s| - 1] == Zeros(k) + s[..|s| - 1];
    } else if k > 0 {
      PadKeepsValue(s, k - 1);
      assert Zeros(k) + s == Zeros(k) && Zeros(k)[..k - 1] == Zeros(k - 1) && Zeros(k - 1) + s == Zeros(k - 1);
    } else {
      assert Zeros(0) + s == "";
    }
  }

  /** Lower-case hex digits of n, at least width of them, and more only if n needs them. */
  ghost predicate HexOfWidth(s: string, n: nat, width: nat) {
    && AllHex(s) && HexVal(s) == n && Lower(s) == s
    && |s| >= width && (|s| > width && n > 0 ==> s[0] != '0')
  }

  lemma {:induction false} ToHexDigits(n: nat)
    ensures Lower(ToHex(n)) == ToHex(n) && (n > 0 ==> ToHex(n)[0] != '0')
  {
    if n >= 16 {
      ToHexDigits(n / 16);
      var init, last := ToHex(n / 16), [HexChar(n % 16)];
      assert Lower(init + last) == Lower(init) + Lower(last);
      assert ToHex(n)[0] == init[0];
    }
  }

  /** Zeros in front keep small letters small. */
  lemma PadStaysLower(s: string, k: nat)
    requires Lower(s) == s
    ensures Lower(Zeros(k) + s) == Zeros(k) + s
  {
    var padded := Zeros(k) + s;
    forall i | 0 <= i < |padded| ensures LowerChar(padded[i]) == padded[i] {
      if i >= k {
        assert padded[i] == s[i - k] == Lower(s)[i - k];
      }
    }
  }

  lemma PaddedHex(n: nat, width: nat)
    ensures HexOfWidth(PadStart(ToHex(n), width), n, width)
  {
    var s := ToHex(n);
    var k := if |s| < width then width - |s| else 0;
    ToHexValue(n);
    ToHexDigits(n);
    PadKeepsValue(s, k);
    PadStaysLower(s, k);
  }

  /** A formatted value reads back as its number and has its width. */
  lemma FormattedValue(n: nat)
    ensures HexOfWidth(NToHex256(n), n, 64)
    ensures HexOfWidth(FormatValue128(n), n, 32)
  {
    PaddedHex(n, 64);
    PaddedHex(n, 32);
  }

  lemma FormattedReadsBack(n: nat)
    ensures AllHex(NToHex256(n)) && HexVal(NToHex256(n)) == n
    ensures AllHex(FormatValue128(n)) && HexVal(FormatValue128(n)) == n
  {
    FormattedValue(n);
  }

  // ----- the engine's shapes -----

  datatype Commitment =
    | ShieldCommitment(hash: string, txid: string, blockNumber: nat, utxoTree: nat, utxoIndex: nat,
                       npk: string, tokenType: nat, tokenAddress: string, tokenSubID: string, value: string,
                       encryptedBundle: seq<string>, shieldKey: string, fee: Option<string>)
    | TransactCommitment(hash: string, txid: string, blockNumber: nat, utxoTree: nat, utxoIndex: nat,
                         iv: string, tag: string, data: seq<string>, senderKey: string, receiverKey: string,
                         annotationData: string, memo: string)

  datatype CommitmentEvent = CommitmentEvent(txid: string, treeNumber: nat, startPosition: nat,
                                             commitments: seq<Commitment>, blockNumber: nat)

  /** The note hash; any function of the key, the token and the value. */
  type Poseidon = (nat, nat, nat) -> nat

  /** The i-th commitment of a Shield; None where the code throws: an NFT token or a missing ciphertext. */
  function ShieldLeaf(poseidon: Poseidon, row: RawLogRow, i: nat): Option<Commitment>
    requires row.event.Shield? && i < |row.event.commitments|
  {
    var ev := row.event;
    var pre := ev.commitments[i];
    if pre.token.tokenType != 0 || i >= |ev.shieldCiphertext| then None
    else
      var cipher := ev.shieldCiphertext[i];
      Some(ShieldCommitment(
        NToHex256(poseidon(Bi(pre.npk), Bi(pre.token.tokenAddress), pre.value)),
        FormatUint256(row.txHash), row.blockNumber, ev.treeNumber, ev.startPosition + i,
        FormatUint256(pre.npk), 0, "0x" + PadStart(Norm(pre.token.tokenAddress), 40),
        "0x" + PadStart(ToHex(pre.token.tokenSubID), 64), FormatValue128(pre.value),
        [cipher.bundle0, cipher.bundle1, cipher.bundle2], cipher.shieldKey,
        if i < |ev.fees| && ev.fees[i] != 0 then Some(Show(ev.fees[i])) else None))
  }

  /** The i-th commitment of a Transact; None where the code throws: no hash given for it. */
  function TransactLeaf(row: RawLogRow, i: nat): Option<Commitment>
    requires row.event.Transact? && i < |row.event.ciphertext|
  {
    var ev := row.event;
    var cc := ev.ciphertext[i];
    if i >= |ev.hash| then None
    else
      var ivTag := FormatUint256(cc.ivTag);
      Some(TransactCommitment(
        FormatUint256(ev.hash[i]), FormatUint256(row.txHash), row.blockNumber, ev.treeNumber, ev.startPosition + i,
        Slice(ivTag, 0, 32), SliceFrom(ivTag, 32), seq(|cc.data|, n requires 0 <= n < |cc.data| => FormatUint256(cc.data[n])),
        FormatUint256(cc.senderKey), FormatUint256(cc.receiverKey), cc.annotationData, cc.memo))
  }

  /** map over the first n elements, failing with the first that fails. */
  function Leaves<T>(leaf: nat -> Option<T>, n: nat): Option<seq<T>> {
    if n == 0 then Some([])
    else
      var rest := Leaves(leaf, n - 1);
      if rest.None? || leaf(n - 1).None? then None else Some(rest.value + [leaf(n - 1).value])
  }

  function ShieldLeafOf(poseidon: Poseidon, row: RawLogRow): nat -> Option<Commitment> {
    (i: nat) => if row.event.Shield? && i < |row.event.commitments| then ShieldLeaf(poseidon, row, i) else None
  }

  function TransactLeafOf(row: RawLogRow): nat -> Option<Commitment> {
    (i: nat) => if row.event.Transact? && i < |row.event.ciphertext| then TransactLeaf(row, i) else None
  }

  /** The commitments of one Shield or Transact row. */
  function EngineLeaves(poseidon: Poseidon, row: RawLogRow): Option<seq<Commitment>> {
    match row.event
    case Shield(_, _, commitments, _, _) => Leaves(ShieldLeafOf(poseidon, row), |commitments|)
    case Transact(_, _, _, ciphertext) => Leaves(TransactLeafOf(row), |ciphertext|)
    case _ => Some([])
  }

  /** What one row adds to the engine's commitment events. */
  function EngineRow(poseidon: Poseidon, row: RawLogRow): Option<seq<CommitmentEvent>> {
    if !row.event.Shield? && !row.event.Transact? then Some([])
    else
      var leaves := EngineLeaves(poseidon, row);
      if leaves.None? then None
      else Some([CommitmentEvent(FormatUint256(row.txHash), row.event.treeNumber, row.event.startPosition, leaves.value,
                                 row.blockNumber)])
  }

  function EngineDecoder(poseidon: Poseidon): RawLogRow -> Option<seq<CommitmentEvent>> {
    row => EngineRow(poseidon, row)
  }

  datatype Nullifier = Nullifier(nullifier: string, treeNumber: nat, txid: string, blockNumber: nat)

  function NullifierRow(row: RawLogRow): Option<seq<Nullifier>> {
    if !row.event.Nullified? then Some([])
    else Some(seq(|row.event.nullifier|, i requires 0 <= i < |row.event.nullifier| =>
      Nullifier(FormatUint256(row.event.nullifier[i]), row.event.treeNumber, FormatUint256(row.txHash), row.blockNumber)))
  }

  datatype UnshieldEvent = UnshieldEvent(txid: string, toAddress: string, tokenType: nat, tokenAddress: string,
                                         tokenSubID: string, amount: string, fee: string, blockNumber: nat, eventLogIndex: nat)

  function UnshieldRow(row: RawLogRow): Option<seq<UnshieldEvent>> {
    if !row.event.Unshield? then Some([])
    else
      var ev := row.event;
      Some([UnshieldEvent(FormatUint256(row.txHash), ev.toAddress, ev.token.tokenType, ev.token.tokenAddress,
                          Show(ev.token.tokenSubID), Show(ev.amount), Show(ev.unshieldFee), row.blockNumber, row.logIndex)])
  }

  // ----- decoding many rows -----

  /** Results pushed one after the other; a failure anywhere fails the whole. */
  function Joined<T>(a: Option<seq<T>>, b: Option<seq<T>>): Option<seq<T>> {
    if a.None? || b.None? then None else Some(a.value + b.value)
  }

  /** One pass over the rows; the first row that throws fails the request. */
  function Decoded<T>(rows: seq<RawLogRow>, decode: RawLogRow -> Option<seq<T>>): Option<seq<T>> {
    if rows == [] then Some([])
    else Joined(Decoded(rows[..|rows| - 1], decode), decode(rows[|rows| - 1]))
  }

  /** The loop every decoder runs: push what each row gives. */
  method DecodeRows<T>(rows: seq<RawLogRow>, decode: RawLogRow -> Option<seq<T>>) returns (out: Option<seq<T>>)
    ensures out == Decoded(rows, decode)
  {
    var acc: seq<T> := [];
    for i := 0 to |rows|
      invariant Decoded(rows[..i], decode) == Some(acc)
    {
      assert rows[..i + 1][..i] == rows[..i];
      var given := decode(rows[i]);
      if given.None? {
        DecodeFails(rows, i + 1, decode);
        return None;
      }
      acc := acc + given.value;
    }
    assert rows[..|rows|] == rows;
    return Some(acc);
  }

  lemma {:induction false} DecodeFails<T>(rows: seq<RawLogRow>, i: nat, decode: RawLogRow -> Option<seq<T>>)
    requires i <= |rows| && Decoded(rows[..i], decode).None?
    ensures Decoded(rows, decode).None?
  {
    if i < |rows| {
      assert rows[..|rows| - 1][..i] == rows[..i];
      DecodeFails(rows[..|rows| - 1], i, decode);
    } else {
      assert rows[..i] == rows;
    }
  }

  lemma JoinedTwice<T>(a: Option<seq<T>>, b: Option<seq<T>>, c: Option<seq<T>>)
    ensures Joined(Joined(a, b), c) == Joined(a, Joined(b, c))
  {
    if a.Some? && b.Some? && c.Some? {
      assert a.value + b.value + c.value == a.value + (b.value + c.value);
    }
  }

  /** Decoding two lists one after the other is decoding their concatenation. */
  lemma {:induction false} DecodedJoin<T>(a: seq<RawLogRow>, b: seq<RawLogRow>, decode: RawLogRow -> Option<seq<T>>)
    ensures Decoded(a + b, decode) == Joined(Decoded(a, decode), Decoded(b, decode))
  {
    if b == [] {
      assert a + b == a;
      assert Decoded(a, decode).Some? ==> Decoded(a, decode).value + [] == Decoded(a, decode).value;
    } else {
      var init, last := b[..|b| - 1], decode(b[|b| - 1]);
      DecodedJoin(a, init, decode);
      assert (a + b)[..|a + b| - 1] == a + init;
      JoinedTwice(Decoded(a, decode), Decoded(init, decode), last);
    }
  }

  // ----- events and the rows they stand for -----

  /** The last 64 digits, with zeros in front where there are fewer. */
  lemma FormattedDigits(hex: string)
    ensures var padded := Zeros(64) + Norm(hex); FormatUint256(hex) == padded[|padded| - 64..]
  {
    var body := Norm(hex);
    if |body| <= 64 {
      assert (Zeros(64) + body)[|body|..] == Zeros(64 - |body|) + body;
    } else {
      assert (Zeros(64) + body)[|body|..] == body[|body| - 64..];
    }
  }

  /** The Shield and Transact rows, in order. */
  function CommitmentRows(rows: seq<RawLogRow>): seq<RawLogRow> {
    if rows == [] then []
    else
      var rest, last := CommitmentRows(rows[..|rows| - 1]), rows[|rows| - 1];
      if last.event.Shield? || last.event.Transact? then rest + [last] else rest
  }

  /** Each commitment of an ERC20 Shield has its ciphertext, each of a Transact its hash. */
  predicate Decodable(row: RawLogRow) {
    match row.event
    case Shield(_, _, commitments, ciphers, _) =>
      |commitments| <= |ciphers| && forall pre :: pre in commitments ==> pre.token.tokenType == 0
    case Transact(_, _, hash, ciphertext) => |ciphertext| <= |hash|
    case _ => true
  }

  /** The leaf sits i places after the start of its event, in the same tree, transaction and block. */
  predicate InPlace(e: CommitmentEvent, i: nat)
    requires i < |e.commitments|
  {
    var c := e.commitments[i];
    c.utxoTree == e.treeNumber && c.utxoIndex == e.startPosition + i && c.txid == e.txid && c.blockNumber == e.blockNumber
  }

  /** The event has the tree, the position, the transaction and the block of its row, and one leaf for each commitment. */
  ghost predicate StandsFor(e: CommitmentEvent, row: RawLogRow) {
    && e.txid == FormatUint256(row.txHash) && e.blockNumber == row.blockNumber
    && (match row.event
        case Shield(tree, start, commitments, _, _) =>
          && e.treeNumber == tree && e.startPosition == start && |e.commitments| == |commitments|
          && forall i :: 0 <= i < |e.commitments| ==> e.commitments[i].ShieldCommitment?
        case Transact(tree, start, _, ciphertext) =>
          && e.treeNumber == tree && e.startPosition == start && |e.commitments| == |ciphertext|
          && forall i :: 0 <= i < |e.commitments| ==> e.commitments[i].TransactCommitment?
        case _ => false)
    && forall i :: 0 <= i < |e.commitments| ==> InPlace(e, i)
  }

  lemma {:induction false} LeavesInOrder<T>(leaf: nat -> Option<T>, n: nat)
    ensures Leaves(leaf, n).Some? <==> forall i: nat :: i < n ==> leaf(i).Some?
    ensures Leaves(leaf, n).Some? ==>
              |Leaves(leaf, n).value| == n && forall i: nat :: i < n ==> Leaves(leaf, n).value[i] == leaf(i).value
  {
    if n > 0 {
      LeavesInOrder(leaf, n - 1);
    }
  }

  lemma ShieldDecodes(poseidon: Poseidon, row: RawLogRow)
    requires row.event.Shield?
    ensures EngineRow(poseidon, row).Some? <==> Decodable(row)
  {
    var leaf, pres := ShieldLeafOf(poseidon, row), row.event.commitments;
    LeavesInOrder(leaf, |pres|);
    forall i: nat | i < |pres|
      ensures leaf(i).Some? <==> pres[i].token.tokenType == 0 && i < |row.event.shieldCiphertext|
    {
    }
    if EngineRow(poseidon, row).Some? && pres != [] {
      assert leaf(|pres| - 1).Some?;
    }
  }

  lemma ShieldEvent(poseidon: Poseidon, row: RawLogRow)
    requires row.event.Shield? && EngineRow(poseidon, row).Some?
    ensures |EngineRow(poseidon, row).value| == 1 && StandsFor(EngineRow(poseidon, row).value[0], row)
  {
    var leaf, n := ShieldLeafOf(poseidon, row), |row.event.commitments|;
    LeavesInOrder(leaf, n);
    var e := EngineRow(poseidon, row).value[0];
    forall i: nat | i < n ensures e.commitments[i].ShieldCommitment? && InPlace(e, i) {
      assert e.commitments[i] == leaf(i).value;
    }
  }

  lemma TransactDecodes(poseidon: Poseidon, row: RawLogRow)
    requires row.event.Transact?
    ensures EngineRow(poseidon, row).Some? <==> Decodable(row)
  {
    var leaf, n := TransactLeafOf(row), |row.event.ciphertext|;
    LeavesInOrder(leaf, n);
    forall i: nat | i < n ensures leaf(i).Some? <==> i < |row.event.hash| {
    }
    if EngineRow(poseidon, row).Some? && n > 0 {
      assert leaf(n - 1).Some?;
    }
  }

  lemma TransactEvent(poseidon: Poseidon, row: RawLogRow)
    requires row.event.Transact? && EngineRow(poseidon, row).Some?
    ensures |EngineRow(poseidon, row).value| == 1 && StandsFor(EngineRow(poseidon, row).value[0], row)
  {
    var leaf, n := TransactLeafOf(row), |row.event.ciphertext|;
    LeavesInOrder(leaf, n);
    var e := EngineRow(poseidon, row).value[0];
    forall i: nat | i < n ensures e.commitments[i].TransactCommitment? && InPlace(e, i) {
      assert e.commitments[i] == leaf(i).value;
    }
  }

  ghost predicate StandFor(events: seq<CommitmentEvent>, rows: seq<RawLogRow>) {
    |events| == |rows| && forall i :: 0 <= i < |events| ==> StandsFor(events[i], rows[i])
  }

  predicate AllDecodable(rows: seq<RawLogRow>) { forall i :: 0 <= i < |rows| ==> Decodable(rows[i]) }

  /** What one row adds: its event, if it is a Shield or a Transact. */
  lemma RowAdds(poseidon: Poseidon, row: RawLogRow)
    ensures EngineRow(poseidon, row).Some? <==> Decodable(row)
    ensures EngineRow(poseidon, row).Some? ==>
              StandFor(EngineRow(poseidon, row).value, if row.event.Shield? || row.event.Transact? then [row] else [])
  {
    if row.event.Shield? {
      ShieldDecodes(poseidon, row);
      if Decodable(row) {
        ShieldEvent(poseidon, row);
      }
    } else if row.event.Transact? {
      TransactDecodes(poseidon, row);
      if Decodable(row) {
        TransactEvent(poseidon, row);
      }
    }
  }

  lemma AlsoDecodable(init: seq<RawLogRow>, last: RawLogRow)
    ensures AllDecodable(init + [last]) <==> AllDecodable(init) && Decodable(last)
  {
    var rows := init + [last];
    assert rows[|init|] == last && forall i :: 0 <= i < |init| ==> rows[i] == init[i];
  }

  lemma StandForJoin(events: seq<CommitmentEvent>, more: seq<CommitmentEvent>, rows: seq<RawLogRow>, others: seq<RawLogRow>)
    requires StandFor(events, rows) && StandFor(more, others)
    ensures StandFor(events + more, rows + others)
  {
    var n, all, of := |events|, events + more, rows + others;
    forall i | 0 <= i < |all| ensures StandsFor(all[i], of[i]) {
      if i < n {
        assert all[i] == events[i] && of[i] == rows[i];
      } else {
        assert all[i] == more[i - n] && of[i] == others[i - n];
      }
    }
  }

  /** Event by event, the Shield and Transact rows in their order; the decode fails exactly when one of them cannot be. */
  lemma {:induction false} EventsStandForRows(poseidon: Poseidon, rows: seq<RawLogRow>)
    ensures Decoded(rows, EngineDecoder(poseidon)).Some? <==> AllDecodable(rows)
    ensures Decoded(rows, EngineDecoder(poseidon)).Some? ==>
              StandFor(Decoded(rows, EngineDecoder(poseidon)).value, CommitmentRows(rows))
  {
    if rows != [] {
      var init, last := rows[..|rows| - 1], rows[|rows| - 1];
      assert rows == init + [last];
      EventsStandForRows(poseidon, init);
      AlsoDecodable(init, last);
      RowAdds(poseidon, last);
      var before, more := Decoded(init, EngineDecoder(poseidon)), EngineRow(poseidon, last);
      assert Decoded(rows, EngineDecoder(poseidon)) == Joined(before, more);
      if before.Some? && more.Some? {
        StandForJoin(before.value, more.value, CommitmentRows(init),
                     if last.event.Shield? || last.event.Transact? then [last] else []);
      }
    }
  }

  /** The Unshield rows, in order. */
  function WithdrawalRows(rows: seq<RawLogRow>): seq<RawLogRow> {
    if rows == [] then []
    else
      var rest, last := WithdrawalRows(rows[..|rows| - 1]), rows[|rows| - 1];
      if last.event.Unshield? then rest + [last] else rest
  }

  /** The withdrawal has the recipient, the token, the amounts and the place in its block of its row. */
  ghost predicate Withdraws(u: UnshieldEvent, row: RawLogRow) {
    match row.event
    case Unshield(to, token, amount, fee) =>
      && u.txid == FormatUint256(row.txHash) && u.blockNumber == row.blockNumber && u.eventLogIndex == row.logIndex
      && u.toAddress == to && u.tokenType == token.tokenType && u.tokenAddress == token.tokenAddress
      && u.tokenSubID == Show(token.tokenSubID) && u.amount == Show(amount) && u.fee == Show(fee)
    case _ => false
  }

  /** Withdrawals row by row, and neither they nor the nullifiers can fail to decode. */
  lemma {:induction false} WithdrawalsStandForRows(rows: seq<RawLogRow>)
    ensures Decoded(rows, NullifierRow).Some? && Decoded(rows, UnshieldRow).Some?
    ensures var us, of := Decoded(rows, UnshieldRow).value, WithdrawalRows(rows);
            |us| == |of| && forall i :: 0 <= i < |us| ==> Withdraws(us[i], of[i])
  {
    if rows != [] {
      WithdrawalsStandForRows(rows[..|rows| - 1]);
    }
  }
}
