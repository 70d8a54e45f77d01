/** Where the fields of a row come from: its hash from a broadcast, its bytes and attestation from one reply of Iris. */
module RunOrigins {
  import opened Wrappers
  import opened IrisClient
  import opened Jobs
  import opened Protocol
  import opened RunSafety

  // ----- the transaction -----

  /** The event forgets the transaction of row k: it was seen reverted or dropped. */
  predicate Forgets(e: Event, k: string) { (e.RevertClear? || e.DropClear?) && e.key == k }

  /** Event b broadcast row k, was told this hash at this time, and the hash has not been forgotten by event n. */
  ghost predicate BroadcastAs(cfg: Config, trace: seq<Event>, b: int, n: nat, k: string, hash: string, at: int)
    requires Run(cfg, trace).Some? && n <= |trace|
  {
    && 0 <= b < n && trace[b].Broadcast? && trace[b].key == k && trace[b].outcome == Accepted(hash)
    && At(cfg, trace, b).now == at
    && forall m :: b < m < n ==> !Forgets(trace[m], k)
  }

  predicate HasTx(s: Sys, k: string) { k in s.jobs && (s.jobs[k].state == Submitted || s.jobs[k].state == Delivered) }

  predicate AwaitsRecord(s: Sys, k: string) { s.pending.AcceptedTx? && s.pending.key == k }

  /** A row keeps its transaction until it is forgotten. */
  lemma KeptTx(cfg: Config, s: Sys, e: Event, k: string)
    requires Step(cfg, s, e).Some? && HasTx(s, k) && HasTx(Step(cfg, s, e).value, k) && StateFields(s.jobs[k])
    ensures !Forgets(e, k)
    ensures var r := Step(cfg, s, e).value.jobs[k];
            r.submittedTxHash == s.jobs[k].submittedTxHash && r.submittedAt == s.jobs[k].submittedAt
  {
  }

  /** It gets one from the write that records an acceptance. */
  lemma GotTx(cfg: Config, s: Sys, e: Event, k: string)
    requires Step(cfg, s, e).Some? && !HasTx(s, k) && HasTx(Step(cfg, s, e).value, k)
    ensures k in s.jobs && AwaitsRecord(s, k) && !Forgets(e, k)
    ensures var r := Step(cfg, s, e).value.jobs[k];
            && r.submittedTxHash == Some(s.pending.hash)
            && r.submittedAt.Some? && s.pending.acceptedAt <= r.submittedAt.value <= s.now
  {
  }

  /** What waits to be recorded was just broadcast, and nothing forgets it meanwhile. */
  lemma StepRecord(cfg: Config, s: Sys, e: Event, k: string)
    requires Step(cfg, s, e).Some? && AwaitsRecord(Step(cfg, s, e).value, k)
    ensures var p := Step(cfg, s, e).value.pending;
            if AwaitsRecord(s, k) && !(e.Broadcast? && e.key == k) then p == s.pending && !Forgets(e, k)
            else e.Broadcast? && e.key == k && e.outcome == Accepted(p.hash) && p.acceptedAt == s.now
  {
  }

  lemma Unforgotten(cfg: Config, trace: seq<Event>, b: int, n: nat, k: string, hash: string, at: int)
    requires Run(cfg, trace).Some? && n < |trace| && BroadcastAs(cfg, trace, b, n, k, hash, at) && !Forgets(trace[n], k)
    ensures BroadcastAs(cfg, trace, b, n + 1, k, hash, at)
  {
  }

  lemma {:induction false} RecordIsBroadcast(cfg: Config, trace: seq<Event>, n: nat, k: string) returns (b: nat)
    requires Run(cfg, trace).Some? && n <= |trace| && AwaitsRecord(At(cfg, trace, n), k)
    ensures BroadcastAs(cfg, trace, b, n, k, At(cfg, trace, n).pending.hash, At(cfg, trace, n).pending.acceptedAt)
  {
    AtStep(cfg, trace, n - 1);
    var s, e := At(cfg, trace, n - 1), trace[n - 1];
    StepRecord(cfg, s, e, k);
    if AwaitsRecord(s, k) && !(e.Broadcast? && e.key == k) {
      b := RecordIsBroadcast(cfg, trace, n - 1, k);
      Unforgotten(cfg, trace, b, n - 1, k, s.pending.hash, s.pending.acceptedAt);
    } else {
      b := n - 1;
    }
  }

  lemma FieldsAt(cfg: Config, trace: seq<Event>, n: nat, k: string)
    requires Run(cfg, trace).Some? && n <= |trace|
    ensures k in At(cfg, trace, n).jobs ==> StateFields(At(cfg, trace, n).jobs[k])
  {
    AtInv(cfg, trace, n);
    if k in At(cfg, trace, n).jobs {
      FieldsOf(cfg, At(cfg, trace, n), k);
    }
  }

  /** What the last event before n did to the transaction of row k. */
  lemma TxBefore(cfg: Config, trace: seq<Event>, n: nat, k: string)
    requires Run(cfg, trace).Some? && 0 < n <= |trace| && HasTx(At(cfg, trace, n), k)
    ensures !Forgets(trace[n - 1], k)
    ensures var s, r := At(cfg, trace, n - 1), At(cfg, trace, n).jobs[k];
            if HasTx(s, k) then r.submittedTxHash == s.jobs[k].submittedTxHash && r.submittedAt == s.jobs[k].submittedAt
            else AwaitsRecord(s, k) && r.submittedTxHash == Some(s.pending.hash)
                 && r.submittedAt.Some? && s.pending.acceptedAt <= r.submittedAt.value
  {
    AtStep(cfg, trace, n - 1);
    var s, e := At(cfg, trace, n - 1), trace[n - 1];
    if HasTx(s, k) {
      FieldsAt(cfg, trace, n - 1, k);
      KeptTx(cfg, s, e, k);
    } else {
      GotTx(cfg, s, e, k);
    }
  }

  /**
   * Whenever a row is submitted or delivered, its hash is the one the submitter was told for a broadcast of this row,
   * it was stored at or after that time, and the transaction has not been seen reverted or dropped since.
   */
  lemma {:induction false} HashWasBroadcast(cfg: Config, trace: seq<Event>, n: nat, k: string)
    returns (b: nat, hash: string, at: int)
    requires Run(cfg, trace).Some? && n <= |trace| && HasTx(At(cfg, trace, n), k)
    ensures BroadcastAs(cfg, trace, b, n, k, hash, at)
    ensures At(cfg, trace, n).jobs[k].submittedTxHash == Some(hash)
    ensures At(cfg, trace, n).jobs[k].submittedAt.Some? && at <= At(cfg, trace, n).jobs[k].submittedAt.value
  {
    TxBefore(cfg, trace, n, k);
    var s := At(cfg, trace, n - 1);
    if HasTx(s, k) {
      b, hash, at := HashWasBroadcast(cfg, trace, n - 1, k);
    } else {
      hash, at := s.pending.hash, s.pending.acceptedAt;
      b := RecordIsBroadcast(cfg, trace, n - 1, k);
    }
    Unforgotten(cfg, trace, b, n - 1, k, hash, at);
  }

  /** Whatever the node is asked about is the transaction that was broadcast for the row and is not resolved yet. */
  lemma AskedAboutBroadcast(cfg: Config, trace: seq<Event>, m: nat, k: string) returns (b: nat, at: int)
    requires Run(cfg, trace).Some? && m < |trace| && (Forgets(trace[m], k) || (trace[m].MarkDelivered? && trace[m].key == k))
    ensures BroadcastAs(cfg, trace, b, m, k, trace[m].hash, at)
  {
    AtStep(cfg, trace, m);
    var s, e := At(cfg, trace, m), trace[m];
    assert NextRow(cfg, s.jobs[k], e, s.pending, s.now).Some?;
    var hash;
    b, hash, at := HashWasBroadcast(cfg, trace, m, k);
  }

  // ----- the delivery -----

  /** The event found the receipt of a success for this transaction, in this block. */
  predicate Confirms(e: Event, k: string, hash: string, block: nat, at: int) {
    e == MarkDelivered(k, hash, Receipt(1, block), at)
  }

  lemma StepDelivered(cfg: Config, s: Sys, e: Event, k: string)
    requires Step(cfg, s, e).Some? && k in Step(cfg, s, e).value.jobs && Step(cfg, s, e).value.jobs[k].state == Delivered
    requires k in s.jobs ==> StateFields(s.jobs[k])
    ensures k in s.jobs
    ensures var r := Step(cfg, s, e).value.jobs[k];
            r == s.jobs[k]
            || (&& e.MarkDelivered? && e.key == k && e.receipt.Receipt? && e.receipt.status == 1
                && r.deliveredTxHash == Some(e.hash) && r.deliveredBlock == Some(e.receipt.block)
                && r.deliveredAt == Some(e.deliveredAt))
  {
  }

  /** A delivered row names the block in which the node saw its own broadcast transaction succeed. */
  lemma {:induction false} DeliveryWasConfirmed(cfg: Config, trace: seq<Event>, n: nat, k: string)
    requires Run(cfg, trace).Some? && n <= |trace|
    requires k in At(cfg, trace, n).jobs && At(cfg, trace, n).jobs[k].state == Delivered
    ensures var j := At(cfg, trace, n).jobs[k];
            && j.deliveredTxHash.Some? && j.deliveredTxHash == j.submittedTxHash
            && j.deliveredBlock.Some? && j.deliveredAt.Some?
            && exists d :: 0 <= d < n
                 && Confirms(trace[d], k, j.deliveredTxHash.value, j.deliveredBlock.value, j.deliveredAt.value)
  {
    FieldsAt(cfg, trace, n, k);
    assert n > 0;
    AtStep(cfg, trace, n - 1);
    FieldsAt(cfg, trace, n - 1, k);
    var s, j := At(cfg, trace, n - 1), At(cfg, trace, n).jobs[k];
    StepDelivered(cfg, s, trace[n - 1], k);
    if j == s.jobs[k] {
      DeliveryWasConfirmed(cfg, trace, n - 1, k);
      var d :| 0 <= d < n - 1 && Confirms(trace[d], k, j.deliveredTxHash.value, j.deliveredBlock.value, j.deliveredAt.value);
    } else {
      assert Confirms(trace[n - 1], k, j.deliveredTxHash.value, j.deliveredBlock.value, j.deliveredAt.value);
    }
  }

  // ----- bytes and attestation -----

  /** The event gave row k this attestation together with these bytes. */
  predicate Attests(cfg: Config, e: Event, k: string, observed: string, attestation: string, message: string) {
    || (e.Poll? && e.key == k && Attestations(cfg, observed, e.reply) == Complete(attestation, message))
    || (e.MockAttest? && e.key == k && cfg.irisMode.MockIris? && attestation == "0x" && message == observed)
  }

  lemma StepBytes(cfg: Config, s: Sys, e: Event, k: string)
    requires Step(cfg, s, e).Some? && k in Step(cfg, s, e).value.jobs && BytesReady(Step(cfg, s, e).value.jobs[k])
    ensures k in s.jobs
    ensures var r := Step(cfg, s, e).value.jobs[k];
            (r.attestation == s.jobs[k].attestation && r.relayMessage == s.jobs[k].relayMessage)
            || Attests(cfg, e, k, s.jobs[k].messageBytes, r.attestation.value, r.relayMessage.value)
  {
  }

  /** Bytes and attestation of a row were given together, by one lookup for the bytes observed at the source. */
  lemma {:induction false} BytesWereAttested(cfg: Config, trace: seq<Event>, n: nat, k: string)
    requires Run(cfg, trace).Some? && n <= |trace| && k in At(cfg, trace, n).jobs && BytesReady(At(cfg, trace, n).jobs[k])
    ensures var j := At(cfg, trace, n).jobs[k];
            exists p :: 0 <= p < n && Attests(cfg, trace[p], k, j.messageBytes, j.attestation.value, j.relayMessage.value)
  {
    assert n > 0;
    AtStep(cfg, trace, n - 1);
    var s, j := At(cfg, trace, n - 1), At(cfg, trace, n).jobs[k];
    StepBytes(cfg, s, trace[n - 1], k);
    OnlyCodedEdges(cfg, trace, n - 1, k);
    if j.attestation == s.jobs[k].attestation && j.relayMessage == s.jobs[k].relayMessage {
      BytesWereAttested(cfg, trace, n - 1, k);
      var p :| 0 <= p < n - 1 && Attests(cfg, trace[p], k, s.jobs[k].messageBytes, j.attestation.value, j.relayMessage.value);
    }
  }

  /** One entry of the reply has these bytes and this attestation, and is the first that agrees with what was observed. */
  ghost predicate FromOneEntry(reply: HttpReply, observed: string, attestation: string, message: string) {
    && reply.Reply? && 200 <= reply.status <= 299 && reply.body.Messages?
    && exists i :: FirstAgreeing(observed, reply.body.entries, i)
         && reply.body.entries[i] == IrisEntry(Some(attestation), Some(message), Some("complete"))
  }

  lemma CompleteIsOneEntry(observed: string, reply: HttpReply, attestation: string, message: string)
    requires Fetch(observed, reply) == Complete(attestation, message)
    ensures FromOneEntry(reply, observed, attestation, message)
  {
    FetchCompletesExactly(observed, reply);
    var i :| FirstAgreeing(observed, reply.body.entries, i) && Trustworthy(observed, reply.body.entries[i]);
    TrustworthyIsAccepted(observed, reply.status, reply.body.entries, i);
    assert reply.body.entries[i] == IrisEntry(Some(attestation), Some(message), Some("complete"));
  }

  /**
   * What is broadcast for a job was attested as it is sent: with a real Iris its bytes and its attestation stand in one
   * entry of one reply for this job, the first that agrees with the bytes observed at the source.
   */
  lemma BroadcastsAreAttested(cfg: Config, trace: seq<Event>, i: nat)
    requires Run(cfg, trace).Some? && i < |trace| && trace[i].Broadcast? && cfg.irisMode.RealIris?
    ensures trace[i].key in At(cfg, trace, i).jobs
    ensures exists p :: 0 <= p < i && trace[p].Poll? && trace[p].key == trace[i].key
              && FromOneEntry(trace[p].reply, At(cfg, trace, i).jobs[trace[i].key].messageBytes, trace[i].attestation,
                              trace[i].message)
  {
    AtStep(cfg, trace, i);
    var k := trace[i].key;
    var j := At(cfg, trace, i).jobs[k];
    BytesWereAttested(cfg, trace, i, k);
    var p :| 0 <= p < i && Attests(cfg, trace[p], k, j.messageBytes, trace[i].attestation, trace[i].message);
    CompleteIsOneEntry(j.messageBytes, trace[p].reply, trace[i].attestation, trace[i].message);
  }

  // ----- the age of a waiting row -----

  predicate HasExpired(s: Sys, k: string) {
    k in s.jobs && s.jobs[k].state == DeadLetter && s.jobs[k].deadLetterReason == Some(Expired)
  }

  lemma StepExpired(cfg: Config, s: Sys, e: Event, k: string)
    requires Step(cfg, s, e).Some? && HasExpired(Step(cfg, s, e).value, k)
    requires k in s.jobs ==> StateFields(s.jobs[k])
    ensures k in s.jobs
    ensures var r := Step(cfg, s, e).value.jobs[k];
            (HasExpired(s, k) && r == s.jobs[k]) || r.updatedAt - r.detectedAt > cfg.maxAttestationAgeMs
  {
  }

  /** Only a row that was past the attestation age when its tick began is given up as expired. */
  lemma {:induction false} ExpiredWasOld(cfg: Config, trace: seq<Event>, n: nat, k: string)
    requires Run(cfg, trace).Some? && n <= |trace| && HasExpired(At(cfg, trace, n), k)
    ensures At(cfg, trace, n).jobs[k].updatedAt - At(cfg, trace, n).jobs[k].detectedAt > cfg.maxAttestationAgeMs
  {
    assert n > 0;
    AtStep(cfg, trace, n - 1);
    FieldsAt(cfg, trace, n - 1, k);
    var s := At(cfg, trace, n - 1);
    StepExpired(cfg, s, trace[n - 1], k);
    if HasExpired(s, k) && At(cfg, trace, n).jobs[k] == s.jobs[k] {
      ExpiredWasOld(cfg, trace, n - 1, k);
    }
  }

  /** A lookup is made only for a row that was not past the attestation age when its tick began. */
  lemma PolledWasYoung(cfg: Config, trace: seq<Event>, m: nat)
    requires Run(cfg, trace).Some? && m < |trace| && trace[m].Poll?
    ensures trace[m].key in At(cfg, trace, m).jobs
    ensures trace[m].tickNow - At(cfg, trace, m).jobs[trace[m].key].detectedAt <= cfg.maxAttestationAgeMs
  {
    AtStep(cfg, trace, m);
  }
}
