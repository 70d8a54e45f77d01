/** The duplicate-calldata cache: what was broadcast within the last ten minutes. */
module DedupCache {
  import opened Wrappers
  import opened Hex

  const DEDUP_TTL_MS: int := 600_000

  /** keccak256 over the packed address and bytes, kept as the pair itself; hex case does not matter. */
  datatype DedupKey = DedupKey(chainId: nat, to: string, data: string)

  function KeyOf(chainId: nat, to: string, data: string): DedupKey { DedupKey(chainId, Lower(to), Lower(data)) }

  datatype DedupEntry = DedupEntry(txHash: string, timestamp: int)

  type Entries = map<DedupKey, DedupEntry>

  predicate Expired(e: DedupEntry, now: int) { now - e.timestamp > DEDUP_TTL_MS }

  function Lookup(entries: Entries, key: DedupKey, now: int): Option<string> {
    if key in entries && !Expired(entries[key], now) then Some(entries[key].txHash) else None
  }

  function AfterLookup(entries: Entries, key: DedupKey, now: int): Entries {
    if key in entries && Expired(entries[key], now) then entries - {key} else entries
  }

  function AfterSweep(entries: Entries, now: int): Entries {
    map k | k in entries && !Expired(entries[k], now) :: entries[k]
  }

  class DedupCache {
    var entries: Entries

    constructor ()
      ensures entries == map[]
    {
      entries := map[];
    }

    method LookupPrior(key: DedupKey, now: int) returns (prior: Option<string>)
      modifies this
      ensures prior == Lookup(old(entries), key, now)
      ensures entries == AfterLookup(old(entries), key, now)
    {
      if key !in entries {
        return None;
      }
      var entry := entries[key];
      if now - entry.timestamp > DEDUP_TTL_MS {
        entries := entries - {key};
        return None;
      }
      return Some(entry.txHash);
    }

    method Record(key: DedupKey, txHash: string, now: int)
      modifies this
      ensures entries == old(entries)[key := DedupEntry(txHash, now)]
    {
      entries := entries[key := DedupEntry(txHash, now)];
    }

    method Sweep(now: int)
      modifies this
      ensures entries == AfterSweep(old(entries), now)
    {
      var cutoff := now - DEDUP_TTL_MS;
      var keys := entries.Keys;
      ghost var all := entries;
      while keys != {}
        invariant keys <= all.Keys
        invariant entries == map k | k in all && (k in keys || all[k].timestamp >= cutoff) :: all[k]
        decreases keys
      {
        var k :| k in keys;
        if entries[k].timestamp < cutoff {
          entries := entries - {k};
        }
        keys := keys - {k};
      }
    }
  }
}
