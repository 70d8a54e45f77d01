/** The same pool logs decoded straight into the SDK's wire shape, and its agreement with the engine's. */
module QuickSyncNative {
  import opened Wrappers
  import opened Hex
  import opened Decimal
  import opened QuickSyncDecode

  datatype NativeShield = NativeShield(
    tree: nat, position: nat, blockNumber: nat, txid: string, hash: string, npk: string, tokenType: nat,
    tokenAddress: string, tokenSubID: string, value: string, encryptedBundle: seq<string>, shieldKey: string,
    fee: Option<string>)

  datatype NativeTransact = NativeTransact(
    tree: nat, position: nat, blockNumber: nat, txid: string, hash: string, ciphertext: seq<string>,
    senderKey: string, receiverKey: string, memo: string, annotationData: string)

  function NativeShieldLeaf(poseidon: Poseidon, row: RawLogRow, i: nat): Option<NativeShield>
    requires row.event.Shield? && i < |row.event.commitments|
  {
    var ev := row.event;
    var pre := ev.commitments[i];
    if pre.token.tokenType != 0 || i >= |ev.shieldCiphertext| then None
    else
      var address, sc := Lower(pre.token.tokenAddress), ev.shieldCiphertext[i];
      Some(NativeShield(
        ev.treeNumber, ev.startPosition + i, row.blockNumber, Lower(row.txHash),
        NToHex256(poseidon(Bi(pre.npk), Bi(address), pre.value)), Norm(pre.npk), 0, address,
        Show(pre.token.tokenSubID), Show(pre.value), [Norm(sc.bundle0), Norm(sc.bundle1), Norm(sc.bundle2)],
        Norm(sc.shieldKey), if i < |ev.fees| then Some(Show(ev.fees[i])) else None))
  }

  function NativeTransactLeaf(row: RawLogRow, i: nat): Option<NativeTransact>
    requires row.event.Transact? && i < |row.event.ciphertext|
  {
    var ev := row.event;
    var cc := ev.ciphertext[i];
    if i >= |ev.hash| then None
    else Some(NativeTransact(
      ev.treeNumber, ev.startPosition + i, row.blockNumber, Lower(row.txHash), Norm(ev.hash[i]),
      [Norm(cc.ivTag)] + seq(|cc.data|, n requires 0 <= n < |cc.data| => Norm(cc.data[n])),
      Norm(cc.senderKey), Norm(cc.receiverKey), cc.memo, cc.annotationData))
  }

  function NativeShieldLeafOf(poseidon: Poseidon, row: RawLogRow): nat -> Option<NativeShield> {
    (i: nat) => if row.event.Shield? && i < |row.event.commitments| then NativeShieldLeaf(poseidon, row, i) else None
  }

  function NativeTransactLeafOf(row: RawLogRow): nat -> Option<NativeTransact> {
    (i: nat) => if row.event.Transact? && i < |row.event.ciphertext| then NativeTransactLeaf(row, i) else None
  }

  function NativeShieldRow(poseidon: Poseidon, row: RawLogRow): Option<seq<NativeShield>> {
    if !row.event.Shield? then Some([])
    else Leaves(NativeShieldLeafOf(poseidon, row), |row.event.commitments|)
  }

  function NativeTransactRow(row: RawLogRow): Option<seq<NativeTransact>> {
    if !row.event.Transact? then Some([])
    else Leaves(NativeTransactLeafOf(row), |row.event.ciphertext|)
  }

  function NativeShieldDecoder(poseidon: Poseidon): RawLogRow -> Option<seq<NativeShield>> {
    row => NativeShieldRow(poseidon, row)
  }

  datatype NativeNullifier = NativeNullifier(tree: nat, nullifier: string, blockNumber: nat, txid: string)

  function NativeNullifierRow(row: RawLogRow): Option<seq<NativeNullifier>> {
    if !row.event.Nullified? then Some([])
    else Some(seq(|row.event.nullifier|, i requires 0 <= i < |row.event.nullifier| =>
      NativeNullifier(row.event.treeNumber, Show(Bi(row.event.nullifier[i])), row.blockNumber, Lower(row.txHash))))
  }

  datatype NativeUnshield = NativeUnshield(toAddress: string, tokenType: nat, tokenAddress: string, tokenSubID: string,
                                           amount: string, fee: string, blockNumber: nat, txid: string)

  function NativeUnshieldRow(row: RawLogRow): Option<seq<NativeUnshield>> {
    if !row.event.Unshield? then Some([])
    else
      var ev := row.event;
      Some([NativeUnshield(ev.toAddress, ev.token.tokenType, Lower(ev.token.tokenAddress), Show(ev.token.tokenSubID),
                           Show(ev.amount), Show(ev.unshieldFee), row.blockNumber, Lower(row.txHash))])
  }

  // ----- agreement -----

  predicate Bytes32(s: string) { Has0x(s) && |s| == 66 && AllHex(s[2..]) }

  predicate Address(s: string) { Has0x(s) && |s| == 42 && AllHex(s[2..]) }

  predicate TypedPreimage(pre: ShieldPreimage) { Bytes32(pre.npk) && Address(pre.token.tokenAddress) }

  /** The ABI types of the events, as viem decodes them. */
  predicate WellTyped(row: RawLogRow) {
    && Bytes32(row.txHash)
    && match row.event {
         case Shield(_, _, commitments, ciphers, _) =>
           && (forall i :: 0 <= i < |commitments| ==> TypedPreimage(commitments[i]))
         case Transact(_, _, hash, ciphertext) =>
           && (forall i :: 0 <= i < |hash| ==> Bytes32(hash[i]))
           && (forall i :: 0 <= i < |ciphertext| ==> TypedCiphertext(ciphertext[i]))
         case Nullified(_, nullifier) => forall i :: 0 <= i < |nullifier| ==> Bytes32(nullifier[i])
         case Unshield(_, _, _, _) => true
       }
  }

  /** One shield leaf in both shapes: same place, same note, same amounts; a zero fee is absent from the engine's. */
  predicate SameShield(n: NativeShield, c: Commitment) {
    c.ShieldCommitment? && SamePlace(n, c) && SameNote(n, c) && SameCiphertext(n, c)
  }

  predicate SamePlace(n: NativeShield, c: Commitment) {
    && n.tree == c.utxoTree && n.position == c.utxoIndex && n.blockNumber == c.blockNumber
    && n.txid == "0x" + c.txid
  }

  predicate SameNote(n: NativeShield, c: Commitment)
    requires c.ShieldCommitment?
  {
    && n.hash == c.hash && n.npk == c.npk && n.tokenType == c.tokenType && n.tokenAddress == c.tokenAddress
    && AllHex(c.value) && n.value == Show(HexVal(c.value))
    && AllHex(Strip0x(c.tokenSubID)) && n.tokenSubID == Show(HexVal(Strip0x(c.tokenSubID)))
    && c.fee == (if n.fee == Some("0") then None else n.fee)
  }

  predicate SameCiphertext(n: NativeShield, c: Commitment)
    requires c.ShieldCommitment?
  {
    && |c.encryptedBundle| == |n.encryptedBundle| == 3
    && (forall i :: 0 <= i < 3 ==> n.encryptedBundle[i] == Norm(c.encryptedBundle[i]))
    && n.shieldKey == Norm(c.shieldKey)
  }

  predicate SameTransact(n: NativeTransact, c: Commitment) {
    && c.TransactCommitment?
    && n.tree == c.utxoTree && n.position == c.utxoIndex && n.blockNumber == c.blockNumber
    && n.txid == "0x" + c.txid && n.hash == c.hash
    && n.ciphertext == [c.iv + c.tag] + c.data
    && n.senderKey == c.senderKey && n.receiverKey == c.receiverKey
    && n.memo == c.memo && n.annotationData == c.annotationData
  }

  lemma LowerPrefixed(s: string)
    requires Has0x(s)
    ensures Lower(s) == "0x" + Norm(s) && Strip0x(Lower(s)) == Norm(s)
  {
    assert Lower(s)[..2] == "0x" && Lower(s)[2..] == Lower(s[2..]);
    assert Lower(s) == Lower(s)[..2] + Lower(s)[2..];
  }

  lemma Bytes32Format(s: string)
    requires Bytes32(s)
    ensures FormatUint256(s) == Norm(s) && |Norm(s)| == 64 && Lower(s) == "0x" + Norm(s)
  {
    LowerPrefixed(s);
    assert PadStart(Norm(s), 64) == Norm(s);
  }

  lemma LowerTwice(s: string)
    ensures Lower(Lower(s)) == Lower(s)
  {
  }

  lemma AddressFormat(s: string)
    requires Address(s)
    ensures "0x" + PadStart(Norm(s), 40) == Lower(s)
  {
    LowerPrefixed(s);
    assert PadStart(Norm(s), 40) == Norm(s);
  }

  /** Lower-casing does not change the number. */
  lemma BiLower(s: string)
    requires Has0x(s) && AllHex(s[2..])
    ensures Bi(Lower(s)) == Bi(s)
  {
    var x := s[2..];
    LowerPrefixed(s);
    LowerTwice(x);
    assert Strip0x(Lower(s)) == Lower(x) && Strip0x(s) == x;
    assert AllHex(Lower(x));
    HexValLower(Lower(x), x);
  }

  lemma FeeForms(fee: nat)
    ensures Show(fee) == "0" <==> fee == 0
  {
    assert Show(0) == "0";
    if Show(fee) == "0" {
      ShowInjective(fee, 0);
    }
  }

  lemma ShieldNotesAgree(poseidon: Poseidon, row: RawLogRow, i: nat)
    requires row.event.Shield? && i < |row.event.commitments|
    requires TypedPreimage(row.event.commitments[i])
    requires ShieldLeaf(poseidon, row, i).Some?
    ensures SameNote(NativeShieldLeaf(poseidon, row, i).value, ShieldLeaf(poseidon, row, i).value)
  {
    var pre := row.event.commitments[i];
    var c, n := ShieldLeaf(poseidon, row, i).value, NativeShieldLeaf(poseidon, row, i).value;
    assert n.npk == c.npk by { Bytes32Format(pre.npk); }
    assert n.hash == c.hash by { BiLower(pre.token.tokenAddress); }
    assert n.tokenAddress == c.tokenAddress by { AddressFormat(pre.token.tokenAddress); }
    assert AllHex(c.value) && n.value == Show(HexVal(c.value)) by { FormattedReadsBack(pre.value); }
    assert AllHex(Strip0x(c.tokenSubID)) && n.tokenSubID == Show(HexVal(Strip0x(c.tokenSubID))) by {
      FormattedReadsBack(pre.token.tokenSubID);
      assert Strip0x(c.tokenSubID) == NToHex256(pre.token.tokenSubID);
    }
    assert c.fee == if n.fee == Some("0") then None else n.fee by {
      if i < |row.event.fees| { FeeForms(row.event.fees[i]); }
    }
  }

  lemma ShieldPlacesAgree(poseidon: Poseidon, row: RawLogRow, i: nat)
    requires row.event.Shield? && i < |row.event.commitments| && Bytes32(row.txHash)
    requires ShieldLeaf(poseidon, row, i).Some?
    ensures SamePlace(NativeShieldLeaf(poseidon, row, i).value, ShieldLeaf(poseidon, row, i).value)
    ensures SameCiphertext(NativeShieldLeaf(poseidon, row, i).value, ShieldLeaf(poseidon, row, i).value)
  {
    Bytes32Format(row.txHash);
  }

  lemma ShieldLeavesAgree(poseidon: Poseidon, row: RawLogRow, i: nat)
    requires row.event.Shield? && i < |row.event.commitments|
    requires Bytes32(row.txHash) && TypedPreimage(row.event.commitments[i])
    ensures ShieldLeaf(poseidon, row, i).Some? <==> NativeShieldLeaf(poseidon, row, i).Some?
    ensures ShieldLeaf(poseidon, row, i).Some? ==>
              SameShield(NativeShieldLeaf(poseidon, row, i).value, ShieldLeaf(poseidon, row, i).value)
  {
    var e, v := ShieldLeaf(poseidon, row, i), NativeShieldLeaf(poseidon, row, i);
    if e.Some? {
      ShieldPlacesAgree(poseidon, row, i);
      ShieldNotesAgree(poseidon, row, i);
    }
  }

  predicate TypedCiphertext(cc: CommitmentCiphertext) {
    && Bytes32(cc.ivTag) && Bytes32(cc.senderKey) && Bytes32(cc.receiverKey)
    && forall n :: 0 <= n < |cc.data| ==> Bytes32(cc.data[n])
  }

  lemma TransactLeavesAgree(row: RawLogRow, i: nat)
    requires row.event.Transact? && i < |row.event.ciphertext|
    requires Bytes32(row.txHash) && TypedCiphertext(row.event.ciphertext[i])
    requires i < |row.event.hash| ==> Bytes32(row.event.hash[i])
    ensures TransactLeaf(row, i).Some? <==> NativeTransactLeaf(row, i).Some?
    ensures TransactLeaf(row, i).Some? ==> SameTransact(NativeTransactLeaf(row, i).value, TransactLeaf(row, i).value)
  {
    var cc := row.event.ciphertext[i];
    Bytes32Format(row.txHash);
    if i < |row.event.hash| {
      Bytes32Format(row.event.hash[i]);
    }
    Bytes32Format(cc.ivTag);
    Bytes32Format(cc.senderKey);
    Bytes32Format(cc.receiverKey);
    forall n | 0 <= n < |cc.data| ensures FormatUint256(cc.data[n]) == Norm(cc.data[n]) {
      Bytes32Format(cc.data[n]);
    }
    var ivTag := Norm(cc.ivTag);
    assert Slice(ivTag, 0, 32) + SliceFrom(ivTag, 32) == ivTag;
  }

  ghost predicate Alike<S, T>(e: Option<S>, v: Option<T>, same: (T, S) -> bool) {
    && (e.Some? <==> v.Some?)
    && (e.Some? ==> same(v.value, e.value))
  }

  ghost predicate Pairwise<S, T>(vs: seq<T>, es: seq<S>, same: (T, S) -> bool) {
    |vs| == |es| && forall i :: 0 <= i < |vs| ==> same(vs[i], es[i])
  }

  /** Two decoders that agree leaf by leaf agree on the list, down to which one fails. */
  lemma {:induction false} LeavesAgree<S, T>(leaf: nat -> Option<S>, native: nat -> Option<T>, same: (T, S) -> bool, n: nat)
    requires forall i: nat :: i < n ==> Alike(leaf(i), native(i), same)
    ensures Alike(Leaves(leaf, n), Leaves(native, n), (vs, es) => Pairwise(vs, es, same))
  {
    if n > 0 {
      LeavesAgree(leaf, native, same, n - 1);
      assert Alike(leaf(n - 1), native(n - 1), same);
    }
  }

  // ----- whole requests -----

  /** The commitments of one kind, event after event. */
  function Flatten(events: seq<CommitmentEvent>, shields: bool): seq<Commitment> {
    if events == [] then []
    else Flatten(events[..|events| - 1], shields) + OfKind(events[|events| - 1].commitments, shields)
  }

  function OfKind(cs: seq<Commitment>, shields: bool): seq<Commitment> {
    if cs == [] then []
    else
      var rest, last := OfKind(cs[..|cs| - 1], shields), cs[|cs| - 1];
      if last.ShieldCommitment? == shields then rest + [last] else rest
  }

  lemma {:induction false} OfOneKind(cs: seq<Commitment>, shields: bool)
    requires forall i :: 0 <= i < |cs| ==> cs[i].ShieldCommitment? == shields
    ensures OfKind(cs, shields) == cs && OfKind(cs, !shields) == []
  {
    if cs != [] {
      OfOneKind(cs[..|cs| - 1], shields);
    }
  }

  /** The native lists are the engine's events split by kind, in order; the formats fail together. */
  ghost predicate SplitByKind<S, T>(e: Option<seq<CommitmentEvent>>, shields: Option<seq<S>>, transacts: Option<seq<T>>,
                                    sameShield: (S, Commitment) -> bool, sameTransact: (T, Commitment) -> bool)
  {
    && (e.Some? <==> shields.Some? && transacts.Some?)
    && (e.Some? ==> Pairwise(shields.value, Flatten(e.value, true), sameShield))
    && (e.Some? ==> Pairwise(transacts.value, Flatten(e.value, false), sameTransact))
  }

  ghost predicate RowAgrees(poseidon: Poseidon, row: RawLogRow) {
    SplitByKind(EngineRow(poseidon, row), NativeShieldRow(poseidon, row), NativeTransactRow(row), SameShield, SameTransact)
  }

  lemma FlattenOne(e: CommitmentEvent, shields: bool)
    ensures Flatten([e], shields) == OfKind(e.commitments, shields)
  {
    assert [e][..0] == [];
  }

  /** One event whose leaves are all of one kind, next to the native leaves of that kind. */
  lemma OneEventSplits<S, T>(e: CommitmentEvent, shields: seq<S>, transacts: seq<T>, sameShield: (S, Commitment) -> bool,
                             sameTransact: (T, Commitment) -> bool, isShield: bool)
    requires forall i :: 0 <= i < |e.commitments| ==> e.commitments[i].ShieldCommitment? == isShield
    requires Pairwise(shields, if isShield then e.commitments else [], sameShield)
    requires Pairwise(transacts, if isShield then [] else e.commitments, sameTransact)
    ensures SplitByKind(Some([e]), Some(shields), Some(transacts), sameShield, sameTransact)
  {
    OfOneKind(e.commitments, isShield);
    FlattenOne(e, true);
    FlattenOne(e, false);
  }

  lemma ShieldRowAgrees(poseidon: Poseidon, row: RawLogRow)
    requires row.event.Shield? && WellTyped(row)
    ensures RowAgrees(poseidon, row)
  {
    var n := |row.event.commitments|;
    var leaf, native := ShieldLeafOf(poseidon, row), NativeShieldLeafOf(poseidon, row);
    forall i: nat | i < n ensures Alike(leaf(i), native(i), SameShield) {
      ShieldLeavesAgree(poseidon, row, i);
    }
    LeavesAgree(leaf, native, SameShield, n);
    var e := EngineRow(poseidon, row);
    if e.Some? {
      OneEventSplits(e.value[0], NativeShieldRow(poseidon, row).value, [], SameShield, SameTransact, true);
    }
  }

  lemma TransactLeafAlike(row: RawLogRow, i: nat)
    requires row.event.Transact? && WellTyped(row) && i < |row.event.ciphertext|
    ensures Alike(TransactLeafOf(row)(i), NativeTransactLeafOf(row)(i), SameTransact)
  {
    TransactLeavesAgree(row, i);
  }

  lemma TransactListsAgree(row: RawLogRow)
    requires row.event.Transact? && WellTyped(row)
    ensures var n := |row.event.ciphertext|;
            var engine, native := Leaves(TransactLeafOf(row), n), Leaves(NativeTransactLeafOf(row), n);
            (engine.Some? <==> native.Some?) && (engine.Some? ==> Pairwise(native.value, engine.value, SameTransact))
  {
    var n := |row.event.ciphertext|;
    var leaf, native := TransactLeafOf(row), NativeTransactLeafOf(row);
    forall i: nat | i < n ensures Alike(leaf(i), native(i), SameTransact) {
      TransactLeafAlike(row, i);
    }
    LeavesAgree(leaf, native, SameTransact, n);
  }

  lemma TransactRowAgrees(poseidon: Poseidon, row: RawLogRow)
    requires row.event.Transact? && WellTyped(row)
    ensures RowAgrees(poseidon, row)
  {
    TransactListsAgree(row);
    var e := EngineRow(poseidon, row);
    if e.Some? {
      OneEventSplits(e.value[0], [], NativeTransactRow(row).value, SameShield, SameTransact, false);
    }
  }

  lemma {:induction false} FlattenJoin(a: seq<CommitmentEvent>, b: seq<CommitmentEvent>, shields: bool)
    ensures Flatten(a + b, shields) == Flatten(a, shields) + Flatten(b, shields)
  {
    if b == [] {
      assert a + b == a;
    } else {
      var init, last := b[..|b| - 1], OfKind(b[|b| - 1].commitments, shields);
      FlattenJoin(a, init, shields);
      assert (a + b)[..|a + b| - 1] == a + init;
      assert Flatten(a + b, shields) == Flatten(a + init, shields) + last;
      assert Flatten(b, shields) == Flatten(init, shields) + last;
    }
  }

  lemma SplitsJoin<S, T>(e: Option<seq<CommitmentEvent>>, e': Option<seq<CommitmentEvent>>,
                         s: Option<seq<S>>, s': Option<seq<S>>, t: Option<seq<T>>, t': Option<seq<T>>,
                         sameShield: (S, Commitment) -> bool, sameTransact: (T, Commitment) -> bool)
    requires SplitByKind(e, s, t, sameShield, sameTransact) && SplitByKind(e', s', t', sameShield, sameTransact)
    ensures SplitByKind(Joined(e, e'), Joined(s, s'), Joined(t, t'), sameShield, sameTransact)
  {
    if e.Some? && e'.Some? {
      FlattenJoin(e.value, e'.value, true);
      FlattenJoin(e.value, e'.value, false);
    }
  }

  lemma RowsAgree(poseidon: Poseidon, row: RawLogRow)
    requires WellTyped(row)
    ensures RowAgrees(poseidon, row)
  {
    if row.event.Shield? {
      ShieldRowAgrees(poseidon, row);
    } else if row.event.Transact? {
      TransactRowAgrees(poseidon, row);
    }
  }

  /**
   * The two formats carry the same pool history: on ERC20-only rows with ABI-typed fields they fail together, and
   * the native lists are the engine's events split by kind, in order, leaf for leaf.
   */
  lemma {:induction false} FormatsAgree(poseidon: Poseidon, rows: seq<RawLogRow>)
    requires forall i :: 0 <= i < |rows| ==> WellTyped(rows[i])
    ensures SplitByKind(Decoded(rows, EngineDecoder(poseidon)), Decoded(rows, NativeShieldDecoder(poseidon)),
                        Decoded(rows, NativeTransactRow), SameShield, SameTransact)
  {
    if rows != [] {
      var init, row := rows[..|rows| - 1], rows[|rows| - 1];
      FormatsAgree(poseidon, init);
      RowsAgree(poseidon, row);
      SplitsJoin(Decoded(init, EngineDecoder(poseidon)), EngineRow(poseidon, row),
                 Decoded(init, NativeShieldDecoder(poseidon)), NativeShieldRow(poseidon, row),
                 Decoded(init, NativeTransactRow), NativeTransactRow(row), SameShield, SameTransact);
    }
  }

  predicate SameNullifier(n: NativeNullifier, e: Nullifier) {
    && n.tree == e.treeNumber && n.blockNumber == e.blockNumber && n.txid == "0x" + e.txid
    && AllHex(e.nullifier) && n.nullifier == Show(HexVal(e.nullifier))
  }

  predicate SameUnshield(n: NativeUnshield, e: UnshieldEvent) {
    && n.toAddress == e.toAddress && n.blockNumber == e.blockNumber && n.txid == "0x" + e.txid
    && n.tokenType == e.tokenType && n.tokenAddress == Lower(e.tokenAddress) && n.tokenSubID == e.tokenSubID
    && n.amount == e.amount && n.fee == e.fee
  }

  lemma NullifierForms(n: string)
    requires Bytes32(n)
    ensures AllHex(FormatUint256(n)) && HexVal(FormatUint256(n)) == Bi(n)
  {
    Bytes32Format(n);
    LowerTwice(n[2..]);
    assert AllHex(Norm(n)) && Norm(n) == Lower(n[2..]);
    HexValLower(Norm(n), n[2..]);
  }

  lemma NullifiersAgree(row: RawLogRow, i: nat)
    requires row.event.Nullified? && i < |row.event.nullifier|
    requires Bytes32(row.txHash) && Bytes32(row.event.nullifier[i])
    ensures SameNullifier(NativeNullifierRow(row).value[i], NullifierRow(row).value[i])
  {
    var n := row.event.nullifier[i];
    Bytes32Format(row.txHash);
    NullifierForms(n);
    assert NullifierRow(row).value[i].nullifier == FormatUint256(n);
    assert NativeNullifierRow(row).value[i].nullifier == Show(Bi(n));
  }

  lemma NullifierRowAgrees(row: RawLogRow)
    requires WellTyped(row)
    ensures NativeNullifierRow(row).Some? && NullifierRow(row).Some?
    ensures Pairwise(NativeNullifierRow(row).value, NullifierRow(row).value, SameNullifier)
  {
    if row.event.Nullified? {
      forall i | 0 <= i < |row.event.nullifier|
        ensures SameNullifier(NativeNullifierRow(row).value[i], NullifierRow(row).value[i])
      {
        NullifiersAgree(row, i);
      }
    }
  }

  lemma UnshieldRowAgrees(row: RawLogRow)
    requires WellTyped(row)
    ensures NativeUnshieldRow(row).Some? && UnshieldRow(row).Some?
    ensures Pairwise(NativeUnshieldRow(row).value, UnshieldRow(row).value, SameUnshield)
  {
    Bytes32Format(row.txHash);
  }

  /** Decoders that agree on every row agree on the whole list. */
  lemma {:induction false} DecodersAgree<S, T>(rows: seq<RawLogRow>, decode: RawLogRow -> Option<seq<S>>,
                                               native: RawLogRow -> Option<seq<T>>, same: (T, S) -> bool)
    requires forall i :: 0 <= i < |rows| ==> decode(rows[i]).Some? && native(rows[i]).Some?
    requires forall i :: 0 <= i < |rows| ==> Pairwise(native(rows[i]).value, decode(rows[i]).value, same)
    ensures Decoded(rows, decode).Some? && Decoded(rows, native).Some?
    ensures Pairwise(Decoded(rows, native).value, Decoded(rows, decode).value, same)
  {
    if rows != [] {
      DecodersAgree(rows[..|rows| - 1], decode, native, same);
    }
  }

  /** Spent-note markers and withdrawals: row for row the same facts in both formats, and neither ever fails. */
  lemma SpendsAgree(rows: seq<RawLogRow>)
    requires forall i :: 0 <= i < |rows| ==> WellTyped(rows[i])
    ensures Decoded(rows, NullifierRow).Some? && Decoded(rows, NativeNullifierRow).Some?
    ensures Pairwise(Decoded(rows, NativeNullifierRow).value, Decoded(rows, NullifierRow).value, SameNullifier)
    ensures Decoded(rows, UnshieldRow).Some? && Decoded(rows, NativeUnshieldRow).Some?
    ensures Pairwise(Decoded(rows, NativeUnshieldRow).value, Decoded(rows, UnshieldRow).value, SameUnshield)
  {
    forall i | 0 <= i < |rows|
      ensures NativeNullifierRow(rows[i]).Some? && NullifierRow(rows[i]).Some?
      ensures Pairwise(NativeNullifierRow(rows[i]).value, NullifierRow(rows[i]).value, SameNullifier)
    {
      NullifierRowAgrees(rows[i]);
    }
    DecodersAgree(rows, NullifierRow, NativeNullifierRow, SameNullifier);
    forall i | 0 <= i < |rows|
      ensures NativeUnshieldRow(rows[i]).Some? && UnshieldRow(rows[i]).Some?
      ensures Pairwise(NativeUnshieldRow(rows[i]).value, UnshieldRow(rows[i]).value, SameUnshield)
    {
      UnshieldRowAgrees(rows[i]);
    }
    DecodersAgree(rows, UnshieldRow, NativeUnshieldRow, SameUnshield);
  }
}
