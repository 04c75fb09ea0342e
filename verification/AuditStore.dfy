// The path of an audit record: written by audit/writer.py, archived by audit/s3_uploader.py,
// looked up and checked by audit/verifier.py. AES-GCM is left out: the bucket holds the JSON.
module AuditStore {
  import opened Json
  import opened JsonProofs
  import opened CanonicalForm
  import opened Results
  import opened Decimal
  import opened WrittenAt
  import opened HmacUtils
  import opened Audit
  import opened AuditFlags

  // ---- agent outputs and payload ----

  /** _extract_agent_outputs: the five results under fixed names, a missing one as None. */
  function ExtractAgentOutputs(results: map<string, PyValue>): PyValue {
    PyDict([PyEntry("document", Get(results, "document_result")),
            PyEntry("sanctions", Get(results, "sanctions_result")),
            PyEntry("temporal", Get(results, "temporal_result")),
            PyEntry("transaction", Get(results, "transaction_result")),
            PyEntry("rag", Get(results, "rag_context"))])
  }

  lemma {:induction false} ToJsonFieldsAt(entries: seq<PyEntry>, k: nat)
    requires ToJsonFields(entries).Some? && k < |entries|
    ensures ToJson(entries[k].value) == Some(ToJsonFields(entries).value[k].value)
  {
    hide ToJson;
    if k > 0 { ToJsonFieldsAt(entries[1..], k - 1); }
  }

  lemma SameFieldByField(fs: seq<Field>, gs: seq<Field>)
    requires |fs| == |gs| && DistinctKeys(fs) && forall k | 0 <= k < |fs| :: fs[k].key == gs[k].key
    ensures Same(Obj(fs), Obj(gs)) <==> forall k | 0 <= k < |fs| :: Same(fs[k].value, gs[k].value)
  {
    forall key ensures HasKey(fs, key) <==> HasKey(gs, key) {}
    if forall k | 0 <= k < |fs| :: Same(fs[k].value, gs[k].value) {
      forall i, k | 0 <= i < |fs| && 0 <= k < |gs| && fs[i].key == gs[k].key
        ensures Same(fs[i].value, gs[k].value)
      {
        assert i == k;
      }
    }
  }

  /** Changing one value of a dict changes its canonical text exactly when it changes that of
      the value. */
  lemma FieldShows(entries: seq<PyEntry>, k: nat, w: PyValue)
    requires k < |entries| && Dumpable(PyDict(entries)) && Dumpable(PyDict(entries[k := PyEntry(entries[k].key, w)]))
    ensures CanonicalJson(PyDict(entries)) == CanonicalJson(PyDict(entries[k := PyEntry(entries[k].key, w)]))
            <==> CanonicalJson(entries[k].value) == CanonicalJson(w)
  {
    hide ToJsonFields, Same, Canonical;
    var changed := entries[k := PyEntry(entries[k].key, w)];
    var fs, gs := ToJsonFields(entries).value, ToJsonFields(changed).value;
    CanonicalExactly(Obj(fs), Obj(gs));
    SameFieldByField(fs, gs);
    forall i | 0 <= i < |fs|
      ensures Same(fs[i].value, gs[i].value) <==> CanonicalJson(entries[i].value) == CanonicalJson(changed[i].value)
    {
      ToJsonFieldsAt(entries, i);
      ToJsonFieldsAt(changed, i);
      CanonicalExactly(fs[i].value, gs[i].value);
    }
  }

  /** The outputs hold the result of that name under this key, and null when it is missing. */
  ghost predicate Holds(outputs: Json, key: string, results: map<string, PyValue>, name: string) {
    && outputs.Obj? && HasKey(outputs.fields, key)
    && Lookup(outputs.fields, key) == if name in results then ToJson(results[name]) else Some(Null)
  }

  lemma HoldsAt(entries: seq<PyEntry>, k: nat, results: map<string, PyValue>, name: string)
    requires ToJsonFields(entries).Some? && DistinctKeys(ToJsonFields(entries).value) && k < |entries|
    requires entries[k].value == if name in results then results[name] else PyNone
    ensures Holds(Obj(ToJsonFields(entries).value), entries[k].key, results, name)
  {
    hide ToJsonFields, Lookup;
    var fields := ToJsonFields(entries).value;
    ToJsonFieldsAt(entries, k);
    LookupMember(fields, fields[k]);
  }

  /** The five results are signed, each under its own key, and nothing else is. */
  lemma OutputsHold(results: map<string, PyValue>)
    requires ToJson(ExtractAgentOutputs(results)).Some?
    ensures var outputs := ToJson(ExtractAgentOutputs(results)).value;
            && Holds(outputs, "document", results, "document_result")
            && Holds(outputs, "sanctions", results, "sanctions_result")
            && Holds(outputs, "temporal", results, "temporal_result")
            && Holds(outputs, "transaction", results, "transaction_result")
            && Holds(outputs, "rag", results, "rag_context")
            && outputs.Obj? && |outputs.fields| == 5
  {
    hide ToJsonFields, Holds;
    var entries := ExtractAgentOutputs(results).entries;
    KeysDiffer();
    HoldsAt(entries, 0, results, "document_result");
    HoldsAt(entries, 1, results, "sanctions_result");
    HoldsAt(entries, 2, results, "temporal_result");
    HoldsAt(entries, 3, results, "transaction_result");
    HoldsAt(entries, 4, results, "rag_context");
  }

  lemma KeysDiffer()
    ensures forall i, k | 0 <= i < k < 5 ::
              ["document", "sanctions", "temporal", "transaction", "rag"][i]
              != ["document", "sanctions", "temporal", "transaction", "rag"][k]
  {
    assert "document"[0] == 'd' && "sanctions"[0] == 's' && "temporal"[1] == 'e' && "transaction"[1] == 'r';
    assert "temporal"[0] == 't' && "transaction"[0] == 't' && "rag"[0] == 'r';
  }

  /** The results of that name are the same JSON in both runs; a missing one is null. */
  ghost predicate SameResult(a: map<string, PyValue>, b: map<string, PyValue>, name: string) {
    var v, w := if name in a then a[name] else PyNone, if name in b then b[name] else PyNone;
    ToJson(v).Some? && ToJson(w).Some? && Same(ToJson(v).value, ToJson(w).value)
  }

  /** Two runs have the same agent outputs exactly when all five results agree, so that a
      missing result shows unless the other run has none or null in its place. */
  lemma OutputsAgree(a: map<string, PyValue>, b: map<string, PyValue>)
    requires ToJson(ExtractAgentOutputs(a)).Some? && ToJson(ExtractAgentOutputs(b)).Some?
    ensures !Falsy(ExtractAgentOutputs(a))
    ensures Same(ToJson(ExtractAgentOutputs(a)).value, ToJson(ExtractAgentOutputs(b)).value)
            <==> && SameResult(a, b, "document_result") && SameResult(a, b, "sanctions_result")
                 && SameResult(a, b, "temporal_result") && SameResult(a, b, "transaction_result")
                 && SameResult(a, b, "rag_context")
  {
    hide ToJsonFields, Same, SameResult;
    var ea, eb := ExtractAgentOutputs(a).entries, ExtractAgentOutputs(b).entries;
    KeysDiffer();
    SameFieldByField(ToJsonFields(ea).value, ToJsonFields(eb).value);
    SameAt(ea, eb, 0, a, b, "document_result");
    SameAt(ea, eb, 1, a, b, "sanctions_result");
    SameAt(ea, eb, 2, a, b, "temporal_result");
    SameAt(ea, eb, 3, a, b, "transaction_result");
    SameAt(ea, eb, 4, a, b, "rag_context");
  }

  lemma SameAt(ea: seq<PyEntry>, eb: seq<PyEntry>, k: nat, a: map<string, PyValue>, b: map<string, PyValue>,
               name: string)
    requires ToJsonFields(ea).Some? && ToJsonFields(eb).Some? && k < |ea| && k < |eb|
    requires ea[k].value == if name in a then a[name] else PyNone
    requires eb[k].value == if name in b then b[name] else PyNone
    ensures SameResult(a, b, name) <==> Same(ToJsonFields(ea).value[k].value, ToJsonFields(eb).value[k].value)
  {
    hide ToJsonFields, Same;
    ToJsonFieldsAt(ea, k);
    ToJsonFieldsAt(eb, k);
  }

  function Get(results: map<string, PyValue>, key: string): PyValue {
    if key in results then results[key] else PyNone
  }

  /** The rest of what goes into a payload. */
  datatype Extra = Extra(application: string, outcome: string, confidence: string, rationale: PyValue) {
    /** confidence is a float, and rationale a Python value whose dicts have no key twice. */
    ghost predicate Proper() {
      FloatLexeme(confidence) && (ToJson(rationale).Some? ==> WellFormed(ToJson(rationale).value))
    }
  }

  const AGENT_OUTPUTS_KEY: string := "agent_outputs"

  function Payload(decision: string, version: string, at: string, outputs: Json, rationale: Json, e: Extra): Json {
    Obj([Field("application_id", Str(e.application)), Field("decision_id", Str(decision)),
         Field("guideline_version_id", Str(version)), Field("written_at", Str(at)),
         Field(AGENT_OUTPUTS_KEY, outputs), Field("outcome", Str(e.outcome)),
         Field("confidence", Float(e.confidence)), Field("rationale_chain", rationale)])
  }

  /** The bytes that are archived; None is the TypeError of json.dumps. */
  function PayloadText(decision: string, version: string, at: string, outputs: PyValue, e: Extra): Option<string> {
    var o, r := ToJson(outputs), ToJson(e.rationale);
    if o.None? || r.None? then None
    else Some(Canonical(Payload(decision, version, at, o.value, r.value, e)))
  }

  /** What the download step leaves: nothing, when it raises; outputs; or a payload that
      passes the test for the key although it is no dict, on which .get then raises. */
  datatype Download = NoPayload | NotADict | Outputs(value: PyValue)

  /** "agent_outputs" in payload, for the JSON values where Python's in does not raise. */
  predicate HasOutputsKey(payload: Json) {
    match payload
    case Obj(fields) => Lookup(fields, AGENT_OUTPUTS_KEY).Some?
    case Arr(items) => Str(AGENT_OUTPUTS_KEY) in items
    case Str(s) => Contains(s, AGENT_OUTPUTS_KEY)
    case _ => false
  }

  /** _download_and_decrypt_payload followed by .get("agent_outputs"). */
  function Downloaded(bucket: map<string, string>, s3Key: string): Download {
    if s3Key !in bucket then NoPayload
    else
      var read := Loads(bucket[s3Key]);
      if read.Fail? || !HasOutputsKey(read.value) then NoPayload
      else if !read.value.Obj? then NotADict
      else Outputs(FromJson(Lookup(read.value.fields, AGENT_OUTPUTS_KEY).value))
  }

  lemma LookupSorted(fields: seq<Field>, k: nat)
    requires DistinctKeys(fields) && k < |fields|
    ensures SortKeys(Obj(fields)).Obj?
    ensures Lookup(SortKeys(Obj(fields)).fields, fields[k].key) == Some(SortKeys(fields[k].value))
  {
    hide SortValues, SortFields, Lookup;
    SortedObject(fields);
    SortedDistinct(SortFields(SortValues(fields)));
    SortValuesAt(fields, k);
    LookupMember(SortFields(SortValues(fields)), SortValues(fields)[k]);
  }

  /** What comes back from the archive are the outputs, with their keys sorted and their
      datetimes, UUIDs and enum members turned to text. */
  lemma ArchiveKeepsOutputs(bucket: map<string, string>, s3Key: string, decision: string, version: string,
                            at: string, outputs: PyValue, e: Extra)
    requires Dumpable(outputs) && e.Proper() && s3Key in bucket
    requires PayloadText(decision, version, at, outputs, e) == Some(bucket[s3Key])
    ensures Downloaded(bucket, s3Key) == Outputs(FromJson(SortKeys(ToJson(outputs).value)))
  {
    hide SortKeys, Loads, Print, FloatLexeme, Lookup, ToJson, FromJson;
    var j := Payload(decision, version, at, ToJson(outputs).value, ToJson(e.rationale).value, e);
    SourceStylesAreGood();
    CanonicalSurvivesArchive(j, COMPACT);
    assert Canonical(j) == Print(SortKeys(j), COMPACT);
    LookupSorted(j.fields, 4);
  }

  // ---- the object key ----

  /** compute_payload_s3_key */
  function S3Key(decision: string, at: Civil): string {
    "audit/" + Padded(4, at.year) + "/" + Padded(2, at.month) + "/" + decision + ".json.enc"
  }

  /** Different decisions have different object keys, whenever they were written. */
  lemma S3KeyInjective(d: string, a: Civil, d': string, b: Civil)
    requires Printable(a) && Printable(b) && S3Key(d, a) == S3Key(d', b)
    ensures d == d'
  {
    hide Padded;
    Powers();
    DecLength(a.year, 4, Power10(4));
    DecLength(b.year, 4, Power10(4));
    DecLength(a.month, 2, Power10(2));
    DecLength(b.month, 2, Power10(2));
    ValueOfPadded(4, a.year);
    ValueOfPadded(4, b.year);
    ValueOfPadded(2, a.month);
    ValueOfPadded(2, b.month);
    var x, y := S3Key(d, a), S3Key(d', b);
    assert x[14..|x| - 9] == d && y[14..|y| - 9] == d';
  }

  lemma S3KeyNotEmpty(d: string, at: Civil)
    ensures S3Key(d, at) != []
  {}

  // ---- verification by decision ----

  datatype Report = Report(valid: bool, hashPassed: bool, hmacPassed: bool, payloadAvailable: bool, reason: string)

  const HMAC_ONLY_FAILED: string :=
    "HMAC verification failed (MinIO payload unavailable for hash check). "
    + "The stored HMAC does not match the expected value for this audit record."

  /** Steps 2 and 3 of verify_by_decision_id. reachable says whether the object store answers. */
  function ReportOf(c: Crypto, s: KeyState, r: AuditRecord, bucket: map<string, string>, reachable: bool)
    : Outcome<Report>
  {
    var download := if r.s3Key != [] && r.uploaded && reachable then Downloaded(bucket, r.s3Key) else NoPayload;
    if download.NotADict? then Raised(AttributeError)
    else if download.Outputs? then
      var verdict := FullVerification(c, s, r, download.value);
      if verdict.Raised? then Raised(verdict.error)
      else
        var v := verdict.value;
        Ok(Report(v.valid, FlagOf(v, HASH), FlagOf(v, HMAC), true, v.reason))
    else
      var signed := HmacOnly(c, s, r);
      if signed.Raised? then Raised(signed.error)
      else if signed.value then Ok(Report(true, false, true, false, []))
      else Ok(Report(false, false, false, false, HMAC_ONLY_FAILED))
  }

  /** r is what the writer stored for claim x under key k. */
  ghost predicate Genuine(c: Crypto, r: AuditRecord, x: Claim, k: Key) {
    && Writable(x) && r.decision == x.decision && r.version == x.version && r.writtenAt == x.at
    && r.hash == c.sha(Bytes(x)) && r.hmac == c.mac(k, Signed(c, x))
  }

  /** An uploaded record's outputs are in the bucket under its key. */
  ghost predicate Archived(r: AuditRecord, x: Claim, bucket: map<string, string>) {
    && r.s3Key in bucket
    && exists e: Extra :: e.Proper() && ArchivedWith(r, x, bucket, e)
  }

  ghost predicate ArchivedWith(r: AuditRecord, x: Claim, bucket: map<string, string>, e: Extra)
    requires r.s3Key in bucket
  {
    Serialise(x.at).Some?
    && PayloadText(x.decision, x.version, Serialise(x.at).value, x.outputs, e) == Some(bucket[r.s3Key])
  }

  lemma SortedNotEmpty(fields: seq<Field>)
    requires DistinctKeys(fields) && fields != []
    ensures SortKeys(Obj(fields)).Obj? && SortKeys(Obj(fields)).fields != []
  {
    LookupSorted(fields, 0);
  }

  /** The outputs that come back hash like those that were written. */
  lemma ReloadedHash(c: Crypto, outputs: PyValue)
    requires Dumpable(outputs) && outputs.PyDict? && outputs.entries != []
    ensures HashAgentOutputs(c, FromJson(SortKeys(ToJson(outputs).value))) == HashAgentOutputs(c, outputs)
  {
    hide SortKeys, Canonical;
    var j := ToJson(outputs).value;
    SortedNotEmpty(j.fields);
    CanonicalSurvivesArchive(j, COMPACT) by { SourceStylesAreGood(); }
    FromJsonInverse(SortKeys(j));
    assert !Falsy(FromJson(SortKeys(j)));
  }

  lemma GenuineFull(c: Crypto, s: KeyState, r: AuditRecord, x: Claim, k: Key, outputs: PyValue)
    requires c.Lawful() && Genuine(c, r, x, k) && HashAgentOutputs(c, outputs) == HashAgentOutputs(c, x.outputs)
    requires CurrentKey(s).Ok? && (CurrentKey(s).value == k || PreviousKey(s) == Some(k))
    ensures FullVerification(c, s, r, outputs) == Ok(Verdict(true, []))
    ensures HmacOnly(c, s, r) == Ok(true)
  {
    hide Canonical, Message, Serialise, CurrentKey, PreviousKey, Verify, Digest, HashMismatch, METADATA_MISMATCH,
         Lower, AsciiText, HashAgentOutputs, Dumpable, Falsy;
    HashOf(c, x.outputs);
    LowerDigest(r.hash);
    LowerDigest(r.hmac);
    VerifyMeans(c, s, r.hmac, Signed(c, x));
  }

  lemma DownloadedHash(c: Crypto, r: AuditRecord, x: Claim, k: Key, bucket: map<string, string>)
    requires Genuine(c, r, x, k) && x.outputs.PyDict? && Archived(r, x, bucket)
    ensures Downloaded(bucket, r.s3Key).Outputs?
    ensures HashAgentOutputs(c, Downloaded(bucket, r.s3Key).value) == HashAgentOutputs(c, x.outputs)
  {
    hide SortKeys, FromJson, ToJson, Downloaded, PayloadText, HashAgentOutputs, Serialise, Bytes, Signed, Dumpable,
         Extra.Proper, WellFormed, CanonicalJson;
    var e: Extra :| e.Proper() && ArchivedWith(r, x, bucket, e);
    ArchiveKeepsOutputs(bucket, r.s3Key, x.decision, x.version, Serialise(x.at).value, x.outputs, e);
    ReloadedHash(c, x.outputs);
  }

  /** While the signing key is the current or the previous one, a genuine record is valid:
      fully checked once its payload is archived and reachable, by its signature before. */
  lemma GenuineVerifies(c: Crypto, s: KeyState, r: AuditRecord, x: Claim, k: Key, bucket: map<string, string>,
                        reachable: bool)
    requires c.Lawful() && Genuine(c, r, x, k) && x.outputs.PyDict?
    requires r.uploaded ==> Archived(r, x, bucket)
    requires CurrentKey(s).Ok? && (CurrentKey(s).value == k || PreviousKey(s) == Some(k))
    ensures var full := r.s3Key != [] && r.uploaded && reachable;
            ReportOf(c, s, r, bucket, reachable) == Ok(Report(true, full, true, full, []))
  {
    hide FullVerification, HmacOnly, CurrentKey, PreviousKey, FlagOf, HMAC_ONLY_FAILED, Downloaded, HashAgentOutputs,
         Genuine, Archived, HASH, HMAC, Crypto.Lawful;
    GenuineFull(c, s, r, x, k, x.outputs);
    if r.s3Key != [] && r.uploaded && reachable {
      DownloadedHash(c, r, x, k, bucket);
      GenuineFull(c, s, r, x, k, Downloaded(bucket, r.s3Key).value);
      ValidFlags(Verdict(true, []));
    }
  }

  lemma ValidFlags(v: Verdict)
    requires v.valid
    ensures FlagOf(v, HASH) && FlagOf(v, HMAC)
  {}

  // ---- the stateful path ----

  /** What the caller passes: pipe-free ids, results that are Python values, a clock within
      the calendar. */
  ghost predicate WritableState(decision: string, version: string, results: map<string, PyValue>, now: nat) {
    && '|' !in decision && '|' !in version && InCalendar(now)
    && var o := ToJson(ExtractAgentOutputs(results)); o.Some? ==> WellFormed(o.value)
  }

  function ClaimOf(decision: string, version: string, results: map<string, PyValue>, now: nat): Claim {
    Claim(ExtractAgentOutputs(results), decision, version, DateTime(now, Some(0)))
  }

  /** The key that signs. */
  function SignerOf(s: KeyState): Key { if CurrentKey(s).Ok? then CurrentKey(s).value else [] }

  /** The record that _write_audit_record inserts, or what it raises; taken says whether the
      decision already has one. */
  function NewRecord(c: Crypto, s: KeyState, taken: bool, decision: string, version: string,
                     results: map<string, PyValue>, now: nat): Outcome<AuditRecord>
  {
    var x := ClaimOf(decision, version, results, now);
    var w := Written(c, s, x.outputs, decision, version, x.at);
    if w.Raised? then Raised(w.error)
    else if taken then Raised(IntegrityError)
    else Ok(AuditRecord(w.value.0, w.value.1, decision, version, x.at, S3Key(decision, CivilOf(now)), false))
  }

  /** r is genuine and filed under its own object key. */
  ghost predicate Stored(c: Crypto, r: AuditRecord, x: Claim, k: Key) {
    && Genuine(c, r, x, k) && x.outputs.PyDict? && InCalendar(Instant(x.at))
    && r.s3Key == S3Key(x.decision, CivilOf(Instant(x.at)))
  }

  lemma NowIsWritable(now: nat)
    requires InCalendar(now)
    ensures Serialise(DateTime(now, Some(0))).Some?
  {}

  lemma NewRecordIsGenuine(c: Crypto, s: KeyState, decision: string, version: string,
                           results: map<string, PyValue>, now: nat)
    requires c.Lawful() && WritableState(decision, version, results, now)
    requires NewRecord(c, s, false, decision, version, results, now).Ok?
    ensures Stored(c, NewRecord(c, s, false, decision, version, results, now).value,
                   ClaimOf(decision, version, results, now), SignerOf(s))
  {
    hide Message, S3Key, CurrentKey, Canonical, ToJson, CivilOf, Iso;
    var x := ClaimOf(decision, version, results, now);
    NowIsWritable(now);
    CivilInverse(now);
    assert Writable(x);
    WrittenValues(c, s, x);
  }

  /** What is raised, and in which order: outputs that are no JSON, no usable key, a decision
      that already has its record. */
  lemma NewRecordRaises(c: Crypto, s: KeyState, taken: bool, decision: string, version: string,
                        results: map<string, PyValue>, now: nat)
    requires WritableState(decision, version, results, now)
    ensures var r := NewRecord(c, s, taken, decision, version, results, now);
            if ToJson(ExtractAgentOutputs(results)).None? then r == Raised(TypeError)
            else if CurrentKey(s).Raised? then r == Raised(CurrentKey(s).error)
            else if taken then r == Raised(IntegrityError)
            else r.Ok? && !r.value.uploaded
  {
    hide Message, S3Key, CurrentKey, Canonical, CivilOf, Iso;
    NowIsWritable(now);
  }

  /** Every record is what the writer made of its claim, and an uploaded one has its payload
      in the bucket. */
  ghost predicate AllGood(c: Crypto, records: map<string, AuditRecord>, claims: map<string, Claim>,
                          signers: map<string, Key>, bucket: map<string, string>)
  {
    && records.Keys == claims.Keys == signers.Keys
    && forall d <- records :: Good(c, d, records[d], claims[d], signers[d], bucket)
  }

  ghost predicate Good(c: Crypto, d: string, r: AuditRecord, x: Claim, k: Key, bucket: map<string, string>) {
    Stored(c, r, x, k) && x.decision == d && (r.uploaded ==> Archived(r, x, bucket))
  }

  lemma GoodWithNew(c: Crypto, records: map<string, AuditRecord>, claims: map<string, Claim>,
                    signers: map<string, Key>, bucket: map<string, string>, r: AuditRecord, x: Claim, k: Key)
    requires AllGood(c, records, claims, signers, bucket) && Stored(c, r, x, k) && !r.uploaded
    ensures AllGood(c, records[x.decision := r], claims[x.decision := x], signers[x.decision := k], bucket)
  {
    hide Stored, Archived;
    var d := x.decision;
    assert records[d := r].Keys == records.Keys + {d} && claims[d := x].Keys == claims.Keys + {d};
    assert signers[d := k].Keys == signers.Keys + {d};
  }

  lemma GoodAfterPut(c: Crypto, records: map<string, AuditRecord>, claims: map<string, Claim>,
                     signers: map<string, Key>, bucket: map<string, string>, x: Claim, s3Key: string, e: Extra,
                     text: string)
    requires AllGood(c, records, claims, signers, bucket) && Serialise(x.at).Some?
    requires s3Key == S3Key(x.decision, CivilOf(Instant(x.at)))
    requires x.decision in claims ==> claims[x.decision] == x
    requires e.Proper() && PayloadText(x.decision, x.version, Serialise(x.at).value, x.outputs, e) == Some(text)
    ensures AllGood(c, records, claims, signers, bucket[s3Key := text])
  {
    hide CivilOf, S3Key, Genuine, PayloadText, Extra.Proper;
    CivilInverse(Instant(x.at));
    assert Printable(CivilOf(Instant(x.at)));
    forall d <- records ensures Good(c, d, records[d], claims[d], signers[d], bucket[s3Key := text]) {
      assert Good(c, d, records[d], claims[d], signers[d], bucket);
      CivilInverse(Instant(claims[d].at));
      if d != x.decision && records[d].s3Key == s3Key {
        S3KeyInjective(d, CivilOf(Instant(claims[d].at)), x.decision, CivilOf(Instant(x.at)));
      }
      if records[d].uploaded && d != x.decision {
        var f: Extra :| f.Proper() && ArchivedWith(records[d], claims[d], bucket, f);
        assert ArchivedWith(records[d], claims[d], bucket[s3Key := text], f);
      } else if records[d].uploaded {
        assert ArchivedWith(records[d], claims[d], bucket[s3Key := text], e);
      }
    }
  }

  lemma MarkedIsGood(c: Crypto, r: AuditRecord, x: Claim, k: Key, bucket: map<string, string>, e: Extra)
    requires Stored(c, r, x, k) && e.Proper() && r.s3Key in bucket && ArchivedWith(r, x, bucket, e)
    ensures Good(c, x.decision, r.(uploaded := true), x, k, bucket)
  {
    hide CivilOf, S3Key, PayloadText, Extra.Proper, Serialise, Bytes, Signed, Writable;
    assert ArchivedWith(r.(uploaded := true), x, bucket, e);
  }

  lemma GoodAfterMark(c: Crypto, records: map<string, AuditRecord>, claims: map<string, Claim>,
                      signers: map<string, Key>, bucket: map<string, string>, x: Claim, s3Key: string, e: Extra)
    requires AllGood(c, records, claims, signers, bucket) && Serialise(x.at).Some? && e.Proper()
    requires s3Key == S3Key(x.decision, CivilOf(Instant(x.at))) && s3Key in bucket
    requires x.decision in records && (x.decision in claims ==> claims[x.decision] == x)
    requires PayloadText(x.decision, x.version, Serialise(x.at).value, x.outputs, e) == Some(bucket[s3Key])
    ensures AllGood(c, records[x.decision := records[x.decision].(uploaded := true, s3Key := s3Key)],
                    claims, signers, bucket)
  {
    hide CivilOf, S3Key, PayloadText, Extra.Proper, Serialise, Genuine, Archived;
    var d := x.decision;
    var r := records[d];
    assert Good(c, d, r, x, signers[d], bucket);
    assert r.s3Key == s3Key;
    MarkedIsGood(c, r, x, signers[d], bucket, e);
    assert r.(uploaded := true, s3Key := s3Key) == r.(uploaded := true);
    assert records[d := r.(uploaded := true)].Keys == records.Keys;
  }

  lemma SameKeysRefl(s: KeyState)
    ensures SameKeys(s, s)
  {}

  /** Records and bucket after an upload: the object is put first and the flag set after. */
  function Uploaded(records: map<string, AuditRecord>, bucket: map<string, string>, decision: string, s3Key: string,
                    text: Option<string>, putWorks: bool, markWorks: bool)
    : (map<string, AuditRecord>, map<string, string>)
  {
    if text.None? || !putWorks then (records, bucket)
    else if !markWorks || decision !in records then (records, bucket[s3Key := text.value])
    else (records[decision := records[decision].(uploaded := true, s3Key := s3Key)], bucket[s3Key := text.value])
  }

  lemma UploadKeepsGood(c: Crypto, records: map<string, AuditRecord>, claims: map<string, Claim>,
                        signers: map<string, Key>, bucket: map<string, string>, x: Claim, s3Key: string, e: Extra,
                        putWorks: bool, markWorks: bool)
    requires AllGood(c, records, claims, signers, bucket) && Serialise(x.at).Some? && e.Proper()
    requires s3Key == S3Key(x.decision, CivilOf(Instant(x.at)))
    requires x.decision in claims ==> claims[x.decision] == x
    ensures var text := PayloadText(x.decision, x.version, Serialise(x.at).value, x.outputs, e);
            var (r, b) := Uploaded(records, bucket, x.decision, s3Key, text, putWorks, markWorks);
            AllGood(c, r, claims, signers, b)
  {
    hide Serialise, CivilOf, PayloadText, S3Key, AllGood, Extra.Proper;
    var text := PayloadText(x.decision, x.version, Serialise(x.at).value, x.outputs, e);
    if text.Some? {
      var put := bucket[s3Key := text.value];
      GoodAfterPut(c, records, claims, signers, bucket, x, s3Key, e, text.value);
      if x.decision in records { GoodAfterMark(c, records, claims, signers, put, x, s3Key, e); }
    }
  }

  /** Whatever was written, uploaded and rotated before: as long as its signing key is the
      current or the previous one, every stored record is reported valid. */
  lemma EveryRecordVerifies(c: Crypto, records: map<string, AuditRecord>, claims: map<string, Claim>,
                            signers: map<string, Key>, bucket: map<string, string>, d: string, s: KeyState,
                            reachable: bool)
    requires c.Lawful() && AllGood(c, records, claims, signers, bucket) && d in records
    requires CurrentKey(s).Ok? && (CurrentKey(s).value == signers[d] || PreviousKey(s) == Some(signers[d]))
    ensures var full := records[d].uploaded && reachable;
            ReportOf(c, s, records[d], bucket, reachable) == Ok(Report(true, full, true, full, []))
  {
    hide ReportOf, CurrentKey, PreviousKey, Genuine, Archived, S3Key, CivilOf;
    assert Good(c, d, records[d], claims[d], signers[d], bucket);
    S3KeyNotEmpty(d, CivilOf(Instant(claims[d].at)));
    GenuineVerifies(c, s, records[d], claims[d], signers[d], bucket, reachable);
  }

  /** Uploading the outputs of a stored record completes it: from then on a report rests on
      hash and signature both, and is valid while the signing key is in use. */
  lemma UploadCompletes(c: Crypto, records: map<string, AuditRecord>, claims: map<string, Claim>,
                        signers: map<string, Key>, bucket: map<string, string>, d: string, e: Extra, s: KeyState)
    requires c.Lawful() && AllGood(c, records, claims, signers, bucket) && d in records
    requires e.Proper() && ToJson(e.rationale).Some?
    requires CurrentKey(s).Ok? && (CurrentKey(s).value == signers[d] || PreviousKey(s) == Some(signers[d]))
    ensures var x := claims[d];
            && Serialise(x.at).Some? && InCalendar(Instant(x.at))
            && var text := PayloadText(x.decision, x.version, Serialise(x.at).value, x.outputs, e);
               var (after, archive) := Uploaded(records, bucket, d, S3Key(d, CivilOf(Instant(x.at))), text, true, true);
               && d in after && after.Keys == records.Keys
               && ReportOf(c, s, after[d], archive, true) == Ok(Report(true, true, true, true, []))
  {
    hide ReportOf, CurrentKey, PreviousKey, S3Key, CivilOf, AllGood, Serialise, Archived, Extra.Proper;
    OneIsGood(c, records, claims, signers, bucket, d);
    var x := claims[d];
    var s3Key := S3Key(d, CivilOf(Instant(x.at)));
    var text := PayloadText(x.decision, x.version, Serialise(x.at).value, x.outputs, e);
    var (after, archive) := Uploaded(records, bucket, d, s3Key, text, true, true);
    UploadKeepsGood(c, records, claims, signers, bucket, x, s3Key, e, true, true);
    EveryRecordVerifies(c, after, claims, signers, archive, d, s, true);
  }

  lemma OneIsGood(c: Crypto, records: map<string, AuditRecord>, claims: map<string, Claim>,
                  signers: map<string, Key>, bucket: map<string, string>, d: string)
    requires AllGood(c, records, claims, signers, bucket) && d in records
    ensures d in claims && d in signers && Good(c, d, records[d], claims[d], signers[d], bucket)
  {
    hide Good;
  }

  class AuditSystem {
    const crypto: Crypto
    const keys: KeyCache
    var records: map<string, AuditRecord>
    var bucket: map<string, string>
    ghost var claims: map<string, Claim>
    ghost var signers: map<string, Key>

    ghost predicate Valid()
      reads this
    {
      crypto.Lawful() && AllGood(crypto, records, claims, signers, bucket)
    }

    constructor (c: Crypto, k: KeyCache)
      requires c.Lawful()
      ensures Valid() && crypto == c && keys == k && records == map[] && bucket == map[]
    {
      crypto, keys, records, bucket, claims, signers := c, k, map[], map[], map[], map[];
    }

    /** _write_audit_record: hash, signature and object key are computed first, and the one
        insert comes last, so that nothing is stored when any step raises. */
    method WriteAuditRecord(decision: string, version: string, results: map<string, PyValue>, now: nat)
      returns (r: Outcome<AuditRecord>)
      requires Valid() && WritableState(decision, version, results, now)
      modifies this, keys
      ensures Valid() && bucket == old(bucket)
      ensures r == NewRecord(crypto, old(keys.State()), decision in old(records), decision, version, results, now)
      ensures records == if r.Ok? then old(records)[decision := r.value] else old(records)
      ensures forall d <- old(records) :: d in records && records[d] == old(records)[d]
      ensures claims == if r.Ok? then old(claims)[decision := ClaimOf(decision, version, results, now)] else old(claims)
      ensures signers == if r.Ok? then old(signers)[decision := SignerOf(old(keys.State()))] else old(signers)
      ensures keys.State() == old(keys.State()) || keys.State() == CacheCurrent(old(keys.State()))
    {
      hide Serialise, CivilOf, ExtractAgentOutputs, Message, S3Key, LoadKey, CurrentKey, SignerOf, HashAgentOutputs, Stored,
           AllGood;
      var outputs := ExtractAgentOutputs(results);
      var at := DateTime(now, Some(0));
      var hash := HashAgentOutputs(crypto, outputs);
      if hash.Raised? { return Raised(hash.error); }
      var written := Serialise(at);
      NowIsWritable(now);
      var hmac := keys.ComputeRecordHmac(crypto, hash.value, decision, version, written.value);
      if hmac.Raised? { return Raised(hmac.error); }
      var record := AuditRecord(hash.value, hmac.value, decision, version, at, S3Key(decision, CivilOf(now)), false);
      if decision in records { return Raised(IntegrityError); }
      r := Ok(record);
      NewRecordIsGenuine(crypto, old(keys.State()), decision, version, results, now);
      GoodWithNew(crypto, records, claims, signers, bucket, record, ClaimOf(decision, version, results, now),
                  SignerOf(old(keys.State())));
      records := records[decision := record];
      claims := claims[decision := ClaimOf(decision, version, results, now)];
      signers := signers[decision := SignerOf(old(keys.State()))];
    }

    /** An upload of the outputs that were written, under the decision's own object key. */
    ghost predicate Faithful(decision: string, version: string, at: DateTime, outputs: PyValue, e: Extra, s3Key: string)
      reads this`claims
    {
      && e.Proper() && InCalendar(Instant(at)) && s3Key == S3Key(decision, CivilOf(Instant(at)))
      && (decision in claims ==> claims[decision] == Claim(outputs, decision, version, at))
    }

    /** upload_audit_payload: the object is put first and the flag set after. putWorks and
        markWorks say whether the object store and the database do what they are asked. A
        TypeError while serialising counts as a failed upload too. */
    method UploadAuditPayload(decision: string, version: string, at: DateTime, outputs: PyValue, e: Extra,
                              s3Key: string, putWorks: bool, markWorks: bool)
      returns (ok: bool)
      requires Serialise(at).Some?
      modifies this`records, this`bucket
      ensures old(Valid()) && Faithful(decision, version, at, outputs, e, s3Key) ==> Valid()
      ensures var text := PayloadText(decision, version, Serialise(at).value, outputs, e);
              && ok == (text.Some? && putWorks && markWorks)
              && (records, bucket)
                 == Uploaded(old(records), old(bucket), decision, s3Key, text, putWorks, markWorks)
    {
      hide Serialise, CivilOf, PayloadText, S3Key, AllGood, Uploaded, Extra.Proper, Crypto.Lawful;
      if Valid() && Faithful(decision, version, at, outputs, e, s3Key) {
        UploadKeepsGood(crypto, records, claims, signers, bucket, Claim(outputs, decision, version, at), s3Key, e,
                        putWorks, markWorks);
      }
      ok := PutAndMark(decision, s3Key, PayloadText(decision, version, Serialise(at).value, outputs, e),
                       putWorks, markWorks);
    }

    /** The steps of the upload, once the payload is serialised. */
    method PutAndMark(decision: string, s3Key: string, text: Option<string>, putWorks: bool, markWorks: bool)
      returns (ok: bool)
      modifies this`records, this`bucket
      ensures ok == (text.Some? && putWorks && markWorks)
      ensures (records, bucket) == Uploaded(old(records), old(bucket), decision, s3Key, text, putWorks, markWorks)
    {
      if text.None? || !putWorks { return false; }
      bucket := bucket[s3Key := text.value];
      if !markWorks { return false; }
      if decision in records {
        records := records[decision := records[decision].(uploaded := true, s3Key := s3Key)];
      }
      return true;
    }

    /** verify_by_decision_id */
    method VerifyByDecisionId(decision: string, reachable: bool) returns (r: Outcome<Report>)
      modifies keys
      ensures r == if decision !in records then Raised(ValueError)
                   else ReportOf(crypto, old(keys.State()), records[decision], bucket, reachable)
      ensures SameKeys(old(keys.State()), keys.State())
    {
      hide SameKeys, Serialise, FlagOf, Message, Downloaded, HashMismatch, METADATA_MISMATCH, HMAC_ONLY_FAILED, Verify,
           AfterVerify, HASH, HMAC;
      SameKeysRefl(keys.State());
      if decision !in records { return Raised(ValueError); }
      var record := records[decision];
      var download := NoPayload;
      if record.s3Key != [] && record.uploaded && reachable { download := Downloaded(bucket, record.s3Key); }
      var hashPassed, hmacPassed, verdict := false, false, Verdict(false, HMAC_ONLY_FAILED);
      if download.NotADict? { return Raised(AttributeError); }
      if download.Outputs? {
        var hash := HashAgentOutputs(crypto, download.value);
        if hash.Raised? { return Raised(hash.error); }
        var matches := CompareDigest(Lower(hash.value), Lower(record.hash));
        if matches.Raised? { return Raised(matches.error); }
        if !matches.value {
          verdict := Verdict(false, HashMismatch(record.hash, hash.value));
        } else {
          var written := Serialise(record.writtenAt);
          if written.None? { return Raised(OverflowError); }
          var signed := keys.VerifyRecordHmac(crypto, record.hmac, hash.value, record.decision, record.version,
                                              written.value);
          VerifyKeepsKeys(crypto, old(keys.State()), record.hmac,
                          Message(hash.value, record.decision, record.version, written.value));
          if signed.Raised? { return Raised(signed.error); }
          verdict := if signed.value then Verdict(true, []) else Verdict(false, METADATA_MISMATCH);
        }
        hashPassed, hmacPassed := FlagOf(verdict, HASH), FlagOf(verdict, HMAC);
      } else {
        var written := Serialise(record.writtenAt);
        if written.None? { return Raised(OverflowError); }
        var signed := keys.VerifyRecordHmac(crypto, record.hmac, record.hash, record.decision, record.version,
                                            written.value);
        VerifyKeepsKeys(crypto, old(keys.State()), record.hmac,
                        Message(record.hash, record.decision, record.version, written.value));
        if signed.Raised? { return Raised(signed.error); }
        if signed.value { verdict, hmacPassed := Verdict(true, []), true; }
      }
      return Ok(Report(verdict.valid, hashPassed, hmacPassed, download.Outputs?, verdict.reason));
    }
  }
}
