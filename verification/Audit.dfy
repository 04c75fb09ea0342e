// audit/hasher.py and the pure part of audit/verifier.py: what is written into an audit
// record, how a record is checked, and how the failure text is turned into two flags.
module Audit {
  import opened Text
  import opened CanonicalForm
  import opened Results
  import opened WrittenAt
  import opened HmacUtils

  /** The columns of an audit record that take part in verification. */
  datatype AuditRecord = AuditRecord(hash: string, hmac: string, decision: string, version: string,
                                     writtenAt: DateTime, s3Key: string, uploaded: bool)

  datatype Verdict = Verdict(valid: bool, reason: string)

  // ---- writing ----

  /** compute_audit_hmac */
  function AuditHmac(c: Crypto, s: KeyState, hash: string, decision: string, version: string, at: DateTime)
    : Outcome<string>
  {
    var written := Serialise(at);
    if written.None? then Raised(OverflowError)
    else Sign(c, s, Message(hash, decision, version, written.value))
  }

  // ---- checking ----

  function Prefix16(s: string): string { if |s| <= 16 then s else s[..16] }

  /** The two failure texts, phrase by phrase. */
  function HashMismatch(stored: string, recomputed: string): string {
    Join([' '], [OUTPUTS_HASH, MISMATCH, STORED, Prefix16(stored) + DOTS, RECOMPUTED, Prefix16(recomputed) + DOTS,
                 AGENT_OUTPUTS, TAMPERED])
  }

  const METADATA_MISMATCH: string :=
    Join([' '], [RECORD_HMAC, FAILED, THE, METADATA, DECISION_ID, WRITTEN_AT, HAVE_BEEN, WRONG, SIGNING_KEY])

  const OUTPUTS_HASH: string := "agent_outputs_hash"
  const MISMATCH: string := "mismatch."
  const STORED: string := "Stored:"
  const RECOMPUTED: string := "Recomputed:"
  const DOTS: string := "..."
  const AGENT_OUTPUTS: string := "The agent outputs"
  const TAMPERED: string := "have been tampered with."
  const RECORD_HMAC: string := "record_hmac"
  const FAILED: string := "verification failed."
  const THE: string := "The"
  const METADATA: string := "audit record metadata"
  const DECISION_ID: string := "(decision_id, guideline_version_id,"
  const WRITTEN_AT: string := "or written_at) may"
  const HAVE_BEEN: string := "have been tampered with,"
  const WRONG: string := "or the wrong"
  const SIGNING_KEY: string := "signing key is being used."

  /** verify_audit_record_integrity. Exceptions come in the order of the steps. */
  function VerifyIntegrity(c: Crypto, s: KeyState, storedHash: string, storedHmac: string, outputs: PyValue,
                           decision: string, version: string, at: DateTime): Outcome<Verdict>
  {
    var recomputed := HashAgentOutputs(c, outputs);
    if recomputed.Raised? then Raised(recomputed.error)
    else
      var matches := CompareDigest(Lower(recomputed.value), Lower(storedHash));
      if matches.Raised? then Raised(matches.error)
      else if !matches.value then Ok(Verdict(false, HashMismatch(storedHash, recomputed.value)))
      else
        var written := Serialise(at);
        if written.None? then Raised(OverflowError)
        else
          var signed := Verify(c, s, storedHmac, Message(recomputed.value, decision, version, written.value));
          if signed.Raised? then Raised(signed.error)
          else if !signed.value then Ok(Verdict(false, METADATA_MISMATCH))
          else Ok(Verdict(true, []))
  }

  /** _run_full_verification */
  function FullVerification(c: Crypto, s: KeyState, r: AuditRecord, outputs: PyValue): Outcome<Verdict> {
    VerifyIntegrity(c, s, r.hash, r.hmac, outputs, r.decision, r.version, r.writtenAt)
  }

  /** What _run_hmac_only_verification finds: the signature over the stored hash. */
  function HmacOnly(c: Crypto, s: KeyState, r: AuditRecord): Outcome<bool> {
    var written := Serialise(r.writtenAt);
    if written.None? then Raised(OverflowError)
    else Verify(c, s, r.hmac, Message(r.hash, r.decision, r.version, written.value))
  }

  // ---- acceptance ----

  lemma HashOf(c: Crypto, outputs: PyValue)
    requires c.Lawful() && Dumpable(outputs) && !Falsy(outputs)
    ensures HashAgentOutputs(c, outputs) == Ok(c.sha(Canonical(ToJson(outputs).value)))
    ensures Digest(HashAgentOutputs(c, outputs).value) && '|' !in HashAgentOutputs(c, outputs).value
    ensures Lower(HashAgentOutputs(c, outputs).value) == HashAgentOutputs(c, outputs).value
  {
    LowerDigest(HashAgentOutputs(c, outputs).value);
  }

  /** No second input among the two at hand has the same digest. */
  predicate NoShaCollision(c: Crypto, a: string, b: string) { c.sha(a) == c.sha(b) ==> a == b }

  predicate NoMacCollision(c: Crypto, k: Key, m: string, k': Key, m': string) {
    c.mac(k, m) == c.mac(k', m') ==> k == k' && m == m'
  }

  /** What the writer stores for these inputs: the hash and the signature. */
  function Written(c: Crypto, s: KeyState, outputs: PyValue, decision: string, version: string, at: DateTime)
    : Outcome<(string, string)>
  {
    var hash := HashAgentOutputs(c, outputs);
    if hash.Raised? then Raised(hash.error)
    else
      var hmac := AuditHmac(c, s, hash.value, decision, version, at);
      if hmac.Raised? then Raised(hmac.error) else Ok((hash.value, hmac.value))
  }

  /** A presented set of inputs, and what the writer may sign. */
  datatype Claim = Claim(outputs: PyValue, decision: string, version: string, at: DateTime)

  /** Inputs the writer accepts: non-empty outputs that json.dumps takes, pipe-free ids, a
      moment in the calendar. */
  ghost predicate Writable(x: Claim) {
    && Dumpable(x.outputs) && !Falsy(x.outputs)
    && '|' !in x.decision && '|' !in x.version && Serialise(x.at).Some?
  }

  ghost function Bytes(x: Claim): string
    requires Writable(x)
  {
    Canonical(ToJson(x.outputs).value)
  }

  ghost function Signed(c: Crypto, x: Claim): string
    requires Writable(x)
  {
    Message(c.sha(Bytes(x)), x.decision, x.version, Serialise(x.at).value)
  }

  ghost predicate SameClaim(x: Claim, y: Claim)
    requires Writable(x) && Writable(y)
  {
    && Same(ToJson(x.outputs).value, ToJson(y.outputs).value)
    && x.decision == y.decision && x.version == y.version && Instant(x.at) == Instant(y.at)
  }

  lemma WrittenValues(c: Crypto, s: KeyState, x: Claim)
    requires c.Lawful() && Writable(x) && CurrentKey(s).Ok?
    ensures Written(c, s, x.outputs, x.decision, x.version, x.at)
            == Ok((c.sha(Bytes(x)), c.mac(CurrentKey(s).value, Signed(c, x))))
  {
    hide CurrentKey, Canonical;
    HashOf(c, x.outputs);
  }

  lemma SignedAlike(c: Crypto, x: Claim, y: Claim)
    requires c.Lawful() && Writable(x) && Writable(y) && c.sha(Bytes(x)) == c.sha(Bytes(y))
    ensures Signed(c, x) == Signed(c, y)
            <==> x.decision == y.decision && x.version == y.version && Instant(x.at) == Instant(y.at)
  {
    hide Message, Serialise, Instant, Canonical, Dumpable;
    HashOf(c, x.outputs);
    HashOf(c, y.outputs);
    MessageInjective(c.sha(Bytes(x)), x.decision, x.version, Serialise(x.at).value,
                     c.sha(Bytes(y)), y.decision, y.version, Serialise(y.at).value);
    SerialiseExactly(x.at, y.at);
  }

  /** The check on arbitrary stored values: which of the three results comes out. */
  lemma VerdictOf(c: Crypto, s: KeyState, storedHash: string, storedHmac: string, y: Claim)
    requires c.Lawful() && Writable(y) && CurrentKey(s).Ok?
    requires AsciiText(Lower(storedHash)) && AsciiText(Lower(storedHmac))
    ensures var h := c.sha(Bytes(y));
            VerifyIntegrity(c, s, storedHash, storedHmac, y.outputs, y.decision, y.version, y.at)
            == Ok(if Lower(storedHash) != h then Verdict(false, HashMismatch(storedHash, h))
                  else if Verify(c, s, storedHmac, Signed(c, y)) == Ok(true) then Verdict(true, [])
                  else Verdict(false, METADATA_MISMATCH))
  {
    hide Message, Serialise, Canonical, Dumpable, HashMismatch, Verify, CurrentKey;
    HashOf(c, y.outputs);
    LowerDigest(c.sha(Bytes(y)));
    VerifyMeans(c, s, storedHmac, Signed(c, y));
  }

  /** A record written for claim x is accepted for claim y exactly when the two agree: the
      same outputs up to key order, the same ids, the same moment. Otherwise the reason names
      the check that failed. */
  lemma VerifiesExactly(c: Crypto, past: KeyState, now: KeyState, x: Claim, y: Claim)
    requires c.Lawful() && Writable(x) && Writable(y) && CurrentKey(past).Ok? && CurrentKey(now).Ok?
    requires CurrentKey(now) == CurrentKey(past) || PreviousKey(now) == Some(CurrentKey(past).value)
    requires NoShaCollision(c, Bytes(x), Bytes(y))
    requires NoMacCollision(c, CurrentKey(past).value, Signed(c, x), CurrentKey(now).value, Signed(c, y))
    requires PreviousKey(now).Some? ==>
               NoMacCollision(c, CurrentKey(past).value, Signed(c, x), PreviousKey(now).value, Signed(c, y))
    ensures Written(c, past, x.outputs, x.decision, x.version, x.at).Ok?
    ensures var (hash, hmac) := Written(c, past, x.outputs, x.decision, x.version, x.at).value;
            VerifyIntegrity(c, now, hash, hmac, y.outputs, y.decision, y.version, y.at)
            == Ok(if SameClaim(x, y) then Verdict(true, [])
                  else if !Same(ToJson(x.outputs).value, ToJson(y.outputs).value)
                  then Verdict(false, HashMismatch(hash, c.sha(Bytes(y))))
                  else Verdict(false, METADATA_MISMATCH))
  {
    hide Message, Serialise, Instant, HashMismatch, Verify, CurrentKey, PreviousKey, Canonical, Same,
         VerifyIntegrity, Written, Digest, Lower, AsciiText, METADATA_MISMATCH;
    WrittenValues(c, past, x);
    var hash, hmac := c.sha(Bytes(x)), c.mac(CurrentKey(past).value, Signed(c, x));
    LowerDigest(hash);
    LowerDigest(hmac);
    CanonicalExactly(ToJson(x.outputs).value, ToJson(y.outputs).value);
    VerdictOf(c, now, hash, hmac, y);
    VerifyMeans(c, now, hmac, Signed(c, y));
    if c.sha(Bytes(x)) == c.sha(Bytes(y)) {
      SignedAlike(c, x, y);
    }
  }
}
