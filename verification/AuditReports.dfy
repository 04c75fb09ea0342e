// What a report of verify_by_decision_id means for any stored record and any archived
// payload, and that no change to either goes unreported.
module AuditReports {
  import opened Json
  import opened JsonProofs
  import opened JsonReads
  import opened CanonicalForm
  import opened Results
  import opened WrittenAt
  import opened HmacUtils
  import opened Audit
  import opened AuditFlags
  import opened AuditStore

  // ---- the signed message ----

  /** The message is its four fields with a bar between two. */
  lemma MessageText(hash: string, decision: string, version: string, written: string)
    ensures Message(hash, decision, version, written) == hash + "|" + decision + "|" + version + "|" + written
  {
    assert hash + "|" + decision + "|" + version + "|" + written
        == hash + ("|" + (decision + ("|" + (version + ("|" + written)))));
  }

  /** A message with bar-free fields tells its fields, whatever the other fields hold. */
  lemma MessageTellsFields(h: string, d: string, v: string, w: string, h': string, d': string, v': string, w': string)
    requires '|' !in h && '|' !in d && '|' !in v && '|' !in w
    ensures Message(h, d, v, w) == Message(h', d', v', w') <==> h == h' && d == d' && v == v' && w == w'
  {
    hide Message;
    if Message(h, d, v, w) == Message(h', d', v', w') {
      BarsOf(h, d, v, w);
      BarsOf(h', d', v', w');
      MessageInjective(h, d, v, w, h', d', v', w');
    }
  }

  lemma BarsOf(h: string, d: string, v: string, w: string)
    ensures multiset(Message(h, d, v, w))['|']
            == 3 + multiset(h)['|'] + multiset(d)['|'] + multiset(v)['|'] + multiset(w)['|']
  {}

  // ---- what a report says ----

  /** The stored signature is, up to letter case, what a key in use gives for m. */
  ghost predicate SignedBy(c: Crypto, s: KeyState, stored: string, m: string) {
    || (CurrentKey(s).Ok? && Lower(stored) == c.mac(CurrentKey(s).value, m))
    || (PreviousKey(s).Some? && Lower(stored) == c.mac(PreviousKey(s).value, m))
  }

  /** The signature of r covers this hash together with the record's ids and moment. */
  ghost predicate Covers(c: Crypto, s: KeyState, r: AuditRecord, hash: string) {
    && Serialise(r.writtenAt).Some?
    && SignedBy(c, s, r.hmac, Message(hash, r.decision, r.version, Serialise(r.writtenAt).value))
  }

  /** The signature can be compared at all. */
  ghost predicate Comparable(s: KeyState, r: AuditRecord) {
    Serialise(r.writtenAt).Some? && CurrentKey(s).Ok? && AsciiText(Lower(r.hmac))
  }

  ghost predicate Reached(r: AuditRecord, reachable: bool) { r.s3Key != [] && r.uploaded && reachable }

  /** Without a payload the report rests on the signature over the stored hash. */
  lemma ReportWithoutPayload(c: Crypto, s: KeyState, r: AuditRecord, bucket: map<string, string>, reachable: bool)
    requires c.Lawful() && (Reached(r, reachable) ==> Downloaded(bucket, r.s3Key).NoPayload?)
    ensures var report := ReportOf(c, s, r, bucket, reachable);
            && report.Ok? == Comparable(s, r)
            && (report.Ok? ==>
                  var valid := Covers(c, s, r, r.hash);
                  report.value == Report(valid, false, valid, false, if valid then [] else HMAC_ONLY_FAILED))
  {
    hide Downloaded, Message, Serialise, CurrentKey, PreviousKey, Verify, Lower, AsciiText, HMAC_ONLY_FAILED,
         FullVerification, FlagOf;
    if Serialise(r.writtenAt).Some? { SignatureCheck(c, s, r, r.hash); }
  }

  lemma SignatureCheck(c: Crypto, s: KeyState, r: AuditRecord, hash: string)
    requires c.Lawful() && Serialise(r.writtenAt).Some?
    ensures var signed := Verify(c, s, r.hmac, Message(hash, r.decision, r.version, Serialise(r.writtenAt).value));
            signed.Ok? == Comparable(s, r) && (signed.Ok? ==> signed.value == Covers(c, s, r, hash))
  {
    hide Message, Serialise, CurrentKey, PreviousKey, Lower, AsciiText;
    if Comparable(s, r) { VerifyMeans(c, s, r.hmac, Message(hash, r.decision, r.version, Serialise(r.writtenAt).value)); }
  }

  /** The canonical text of what the archive returns. */
  ghost function ArchivedText(outputs: PyValue): string {
    if ToJson(outputs).Some? then Canonical(ToJson(outputs).value) else []
  }

  ghost predicate FieldIs(j: Json, key: string, value: Json) {
    j.Obj? && Lookup(j.fields, key) == Some(value)
  }

  /** Whatever json.dumps accepts is archived, and read back the archive holds the eight fields
      of the payload. */
  lemma ArchivedPayload(decision: string, version: string, at: string, outputs: PyValue, e: Extra)
    requires Dumpable(outputs) && e.Proper()
    ensures var text := PayloadText(decision, version, at, outputs, e);
            && text.Some? == ToJson(e.rationale).Some?
            && (text.Some? ==>
                  && Loads(text.value).Done?
                  && var j := Loads(text.value).value;
                  && FieldIs(j, "application_id", Str(e.application)) && FieldIs(j, "decision_id", Str(decision))
                  && FieldIs(j, "guideline_version_id", Str(version)) && FieldIs(j, "written_at", Str(at))
                  && FieldIs(j, "agent_outputs", SortKeys(ToJson(outputs).value))
                  && FieldIs(j, "outcome", Str(e.outcome)) && FieldIs(j, "confidence", Float(e.confidence))
                  && FieldIs(j, "rationale_chain", SortKeys(ToJson(e.rationale).value)))
  {
    hide SortValues, SortFields, SortItems, Loads, Print, FloatLexeme, Lookup, ToJson, SortKeys;
    if ToJson(e.rationale).Some? {
      var j := Payload(decision, version, at, ToJson(outputs).value, ToJson(e.rationale).value, e);
      SourceStylesAreGood();
      CanonicalSurvivesArchive(j, COMPACT);
      SortedLeaves(e.application, decision, version, at);
      SortedLeaves(e.outcome, e.confidence, [], []);
      LookupSorted(j.fields, 0);
      LookupSorted(j.fields, 1);
      LookupSorted(j.fields, 2);
      LookupSorted(j.fields, 3);
      LookupSorted(j.fields, 4);
      LookupSorted(j.fields, 5);
      LookupSorted(j.fields, 6);
      LookupSorted(j.fields, 7);
    }
  }

  lemma SortedLeaves(a: string, b: string, c: string, d: string)
    ensures SortKeys(Str(a)) == Str(a) && SortKeys(Str(b)) == Str(b) && SortKeys(Str(c)) == Str(c)
    ensures SortKeys(Str(d)) == Str(d) && SortKeys(Float(b)) == Float(b)
  {}

  /** The payload is what the archived object holds under its outputs key, if it has that key.
      A list or string that contains the word has no get; anything else has no outputs. */
  lemma DownloadedIs(bucket: map<string, string>, s3Key: string, j: Json, st: Style)
    requires WellFormed(j) && GoodStyle(st) && s3Key in bucket && bucket[s3Key] == Print(j, st)
    ensures j.Obj? ==> forall k | 0 <= k < |j.fields| && j.fields[k].key == "agent_outputs" ::
                         Downloaded(bucket, s3Key) == Outputs(FromJson(j.fields[k].value))
    ensures !(j.Obj? && HasKey(j.fields, "agent_outputs")) ==>
              Downloaded(bucket, s3Key)
              == if (j.Arr? && Str("agent_outputs") in j.items) || (j.Str? && Contains(j.s, "agent_outputs"))
                 then NotADict else NoPayload
  {
    hide Loads, Print, FromJson, Lookup, GoodStyle, Contains;
    LoadsPrinted(j, st);
    if j.Obj? {
      forall k | 0 <= k < |j.fields| && j.fields[k].key == "agent_outputs"
        ensures Lookup(j.fields, AGENT_OUTPUTS_KEY) == Some(j.fields[k].value)
      {
        LookupMember(j.fields, j.fields[k]);
      }
      if Lookup(j.fields, AGENT_OUTPUTS_KEY).Some? { LookupFinds(j.fields, AGENT_OUTPUTS_KEY); }
    }
  }

  lemma NothingDownloaded(bucket: map<string, string>, s3Key: string)
    requires s3Key !in bucket || Loads(bucket[s3Key]).Fail?
    ensures Downloaded(bucket, s3Key) == NoPayload
  {
    hide Loads;
  }

  lemma {:induction false} LookupFinds(fields: seq<Field>, key: string)
    requires Lookup(fields, key).Some?
    ensures HasKey(fields, key)
  {
    if fields[0].key != key {
      LookupFinds(fields[1..], key);
      var k :| 0 <= k < |fields[1..]| && fields[1..][k].key == key;
      assert fields[k + 1].key == key;
    } else {
      assert fields[0].key == key;
    }
  }

  lemma DownloadedIsJson(bucket: map<string, string>, s3Key: string)
    requires Downloaded(bucket, s3Key).Outputs?
    ensures ToJson(Downloaded(bucket, s3Key).value).Some?
  {
    hide ToJson, FromJson, Loads, Lookup;
    FromJsonInverse(Lookup(Loads(bucket[s3Key]).value.fields, AGENT_OUTPUTS_KEY).value);
  }

  /** With a payload the stored hash must be that of the archived outputs too, up to letter
      case, and the signature must cover the hash of the archived outputs. */
  lemma ReportWithPayload(c: Crypto, s: KeyState, r: AuditRecord, bucket: map<string, string>, outputs: PyValue)
    requires c.Lawful() && Reached(r, true) && Downloaded(bucket, r.s3Key) == Outputs(outputs)
    ensures ToJson(outputs).Some?
    ensures var report, h := ReportOf(c, s, r, bucket, true), c.sha(ArchivedText(outputs));
            var hashOk := Lower(r.hash) == h;
            && report.Ok? == (!Falsy(outputs) && AsciiText(Lower(r.hash)) && (hashOk ==> Comparable(s, r)))
            && (report.Ok? ==>
                  var valid := hashOk && Covers(c, s, r, h);
                  report.value
                  == Report(valid, hashOk, if hashOk then valid else !SpellsHmac(r.hash), true,
                            if valid then [] else if hashOk then METADATA_MISMATCH else HashMismatch(r.hash, h)))
  {
    hide Downloaded, Message, Serialise, CurrentKey, PreviousKey, Verify, Lower, AsciiText, HashMismatch, Canonical,
         METADATA_MISMATCH, Falsy, ToJson, Covers, FlagOf, Digest, SpellsHmac, HMAC, HASH;
    DownloadedIsJson(bucket, r.s3Key);
    var h := c.sha(ArchivedText(outputs));
    LowerDigest(h);
    if Serialise(r.writtenAt).Some? { SignatureCheck(c, s, r, h); }
    if FullVerification(c, s, r, outputs).Ok? {
      FlagsNameTheCheck(c, s, r.hash, r.hmac, outputs, r.decision, r.version, r.writtenAt);
    }
  }

  /** A payload that holds the word without being an object is the one other case. */
  lemma ReportOnNoDict(c: Crypto, s: KeyState, r: AuditRecord, bucket: map<string, string>)
    requires Reached(r, true) && Downloaded(bucket, r.s3Key).NotADict?
    ensures ReportOf(c, s, r, bucket, true) == Raised(AttributeError)
  {}

  // ---- tampering ----

  /** Nobody without the keys comes up with another signature that a key in use gives. */
  ghost predicate Unforged(c: Crypto, s: KeyState, genuine: string, stored: string, m: string) {
    Lower(stored) == genuine || !SignedBy(c, s, stored, m)
  }

  /** The keys in use give the genuine signature to no other message. */
  ghost predicate NoMacCollisions(c: Crypto, s: KeyState, k: Key, genuine: string, m: string) {
    && (CurrentKey(s).Ok? ==> NoMacCollision(c, k, genuine, CurrentKey(s).value, m))
    && (PreviousKey(s).Some? ==> NoMacCollision(c, k, genuine, PreviousKey(s).value, m))
  }

  ghost predicate InUse(s: KeyState, k: Key) { CurrentKey(s).Ok? && (CurrentKey(s).value == k || PreviousKey(s) == Some(k)) }

  /** The signature of a presented record covers a hash exactly when that is the genuine
      hash, the signature the genuine one up to letter case, and ids and moment are those of
      the claim. */
  lemma CoversExactly(c: Crypto, s: KeyState, x: Claim, k: Key, r: AuditRecord, hash: string)
    requires c.Lawful() && Writable(x) && InUse(s, k)
    requires Serialise(r.writtenAt).Some? ==>
               var m := Message(hash, r.decision, r.version, Serialise(r.writtenAt).value);
               && NoMacCollisions(c, s, k, Signed(c, x), m)
               && Unforged(c, s, c.mac(k, Signed(c, x)), r.hmac, m)
    ensures Covers(c, s, r, hash)
            <==> && hash == c.sha(Bytes(x)) && Lower(r.hmac) == c.mac(k, Signed(c, x))
                 && r.decision == x.decision && r.version == x.version && Instant(r.writtenAt) == Instant(x.at)
  {
    hide Message, CurrentKey, PreviousKey, Lower, CivilOf, Iso, Canonical, Digest, Dumpable, Falsy;
    if Serialise(r.writtenAt).Some? {
      NoBarInDigest(c.sha(Bytes(x)));
      IsoHasNoBar(CivilOf(Instant(x.at)));
      MessageTellsFields(c.sha(Bytes(x)), x.decision, x.version, Serialise(x.at).value,
                         hash, r.decision, r.version, Serialise(r.writtenAt).value);
      SerialiseExactly(x.at, r.writtenAt);
    }
  }

  /** No payload: of a record whose claim was signed with a key in use, every change to hash,
      signature, ids or moment is reported, and only those are. */
  lemma RecordTamperingShows(c: Crypto, s: KeyState, original: AuditRecord, x: Claim, k: Key, r: AuditRecord,
                             bucket: map<string, string>, reachable: bool)
    requires c.Lawful() && Genuine(c, original, x, k) && InUse(s, k)
    requires Reached(r, reachable) ==> Downloaded(bucket, r.s3Key).NoPayload?
    requires Serialise(r.writtenAt).Some? ==>
               var m := Message(r.hash, r.decision, r.version, Serialise(r.writtenAt).value);
               && NoMacCollisions(c, s, k, Signed(c, x), m) && Unforged(c, s, original.hmac, r.hmac, m)
    ensures var report := ReportOf(c, s, r, bucket, reachable);
            report.Ok? && report.value.valid
            <==> && r.hash == original.hash && Lower(r.hmac) == original.hmac && r.decision == original.decision
                 && r.version == original.version && Instant(r.writtenAt) == Instant(original.writtenAt)
  {
    hide ReportOf, Downloaded, Covers, Comparable, Unforged, NoMacCollisions, Writable, Signed, Bytes, Lower, AsciiText,
         CurrentKey, PreviousKey, Instant, Message, Digest;
    ReportWithoutPayload(c, s, r, bucket, reachable);
    CoversExactly(c, s, x, k, r, r.hash);
    if Lower(r.hmac) == original.hmac && Instant(r.writtenAt) == Instant(x.at) { ComparableWhenGenuine(c, s, x, k, r); }
  }

  lemma ComparableWhenGenuine(c: Crypto, s: KeyState, x: Claim, k: Key, r: AuditRecord)
    requires c.Lawful() && Writable(x) && InUse(s, k)
    requires Lower(r.hmac) == c.mac(k, Signed(c, x)) && Instant(r.writtenAt) == Instant(x.at)
    ensures Comparable(s, r)
  {
    hide CurrentKey, PreviousKey, Signed, Bytes, Lower;
    LowerDigest(Lower(r.hmac));
  }

  lemma DownloadedIsWellFormed(bucket: map<string, string>, s3Key: string)
    requires Downloaded(bucket, s3Key).Outputs?
    ensures var v := Downloaded(bucket, s3Key).value; Dumpable(v) && v == FromJson(ToJson(v).value)
  {
    hide ToJson, FromJson, Loads, Lookup, WellFormed;
    var fields := Loads(bucket[s3Key]).value.fields;
    LoadsWellFormed(bucket[s3Key]);
    LookupWellFormed(fields, AGENT_OUTPUTS_KEY);
    FromJsonInverse(Lookup(fields, AGENT_OUTPUTS_KEY).value);
  }

  lemma DictToObject(v: PyValue)
    requires v.PyDict? && ToJson(v).Some?
    ensures ToJson(v).value.Obj? && |ToJson(v).value.fields| == |v.entries|
  {
    hide ToJsonFields;
  }

  lemma SameIsNotFalsy(x: Claim, j: Json)
    requires Writable(x) && x.outputs.PyDict? && Same(ToJson(x.outputs).value, j)
    ensures !Falsy(FromJson(j))
  {
    hide ToJson, WellFormed, FromJsonFields, Serialise;
    DictToObject(x.outputs);
    assert HasKey(ToJson(x.outputs).value.fields, ToJson(x.outputs).value.fields[0].key);
    assert FromJson(j).PyDict?;
    FromJsonInverse(j);
    DictToObject(FromJson(j));
  }

  /** With a payload: whatever the bucket holds under the record's key, the report is valid
      exactly when the outputs in it, the record's hash, signature, ids and moment are the
      genuine ones, up to key order and letter case. */
  lemma PayloadTamperingShows(c: Crypto, s: KeyState, original: AuditRecord, x: Claim, k: Key, r: AuditRecord,
                              bucket: map<string, string>, outputs: PyValue)
    requires c.Lawful() && Genuine(c, original, x, k) && InUse(s, k) && x.outputs.PyDict?
    requires Reached(r, true) && Downloaded(bucket, r.s3Key) == Outputs(outputs)
    requires NoShaCollision(c, Bytes(x), ArchivedText(outputs))
    requires Serialise(r.writtenAt).Some? ==>
               var m := Message(c.sha(ArchivedText(outputs)), r.decision, r.version, Serialise(r.writtenAt).value);
               && NoMacCollisions(c, s, k, Signed(c, x), m) && Unforged(c, s, original.hmac, r.hmac, m)
    ensures ToJson(outputs).Some?
    ensures var report := ReportOf(c, s, r, bucket, true);
            report.Ok? && report.value.valid
            <==> && Same(ToJson(x.outputs).value, ToJson(outputs).value)
                 && Lower(r.hash) == original.hash && Lower(r.hmac) == original.hmac && r.decision == original.decision
                 && r.version == original.version && Instant(r.writtenAt) == Instant(original.writtenAt)
  {
    hide ReportOf, Downloaded, Covers, Comparable, Unforged, NoMacCollisions, Signed, Lower, AsciiText, ToJson, Falsy,
         CurrentKey, PreviousKey, Instant, Message, Digest, Same, WellFormed, Canonical, HashMismatch, METADATA_MISMATCH,
         SpellsHmac, HMAC, Serialise;
    ReportWithPayload(c, s, r, bucket, outputs);
    DownloadedIsWellFormed(bucket, r.s3Key);
    CanonicalExactly(ToJson(x.outputs).value, ToJson(outputs).value);
    CoversExactly(c, s, x, k, r, c.sha(ArchivedText(outputs)));
    if Same(ToJson(x.outputs).value, ToJson(outputs).value) { SameIsNotFalsy(x, ToJson(outputs).value); }
    if Lower(r.hash) == original.hash { LowerDigest(Lower(r.hash)); }
    if Lower(r.hmac) == original.hmac && Instant(r.writtenAt) == Instant(x.at) { ComparableWhenGenuine(c, s, x, k, r); }
  }
}
