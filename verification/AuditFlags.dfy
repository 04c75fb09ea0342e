// verify_by_decision_id of audit/verifier.py reads the two check flags off the failure text.
module AuditFlags {
  import opened Text
  import opened CanonicalForm
  import opened Results
  import opened WrittenAt
  import opened HmacUtils
  import opened Audit

  /** pattern in text */
  predicate Contains(text: string, pattern: string) {
    exists i | 0 <= i <= |text| - |pattern| :: Occurs(text, pattern, i)
  }

  predicate Occurs(text: string, pattern: string, i: int)
    requires 0 <= i <= |text| - |pattern|
  {
    text[i..i + |pattern|] == pattern
  }

  /** The flag for one check: its name does not appear in the reason, in any case. */
  predicate FlagOf(v: Verdict, check: string) { v.valid || !Contains(Lower(v.reason), check) }

  // ---- searching a text made of pieces ----

  lemma OccursMisses(s: string, p: string, i: int, at: nat)
    requires 0 <= i <= |s| - |p| && Occurs(s, p, i) && at < |s| && s[at] !in p
    ensures !(i <= at < i + |p|)
  {
    forall n | i <= n < i + |p| ensures s[n] in p {
      assert s[i..i + |p|][n - i] == s[n] && p[n - i] in p;
    }
  }

  /** A character that the pattern lacks cuts the search in two. */
  lemma ContainsAcross(a: string, c: char, b: string, p: string)
    requires c !in p && p != []
    ensures Contains(a + ([c] + b), p) <==> Contains(a, p) || Contains(b, p)
  {
    var s := a + ([c] + b);
    forall i | 0 <= i <= |a| - |p| ensures Occurs(s, p, i) == Occurs(a, p, i) {}
    forall i | 0 <= i <= |b| - |p| ensures Occurs(s, p, |a| + 1 + i) == Occurs(b, p, i) {
    }
    if Contains(s, p) {
      var i :| 0 <= i <= |s| - |p| && Occurs(s, p, i);
      OccursMisses(s, p, i, |a|);
      if i > |a| { assert Occurs(b, p, i - |a| - 1); } else { assert Occurs(a, p, i); }
    }
  }

  /** So in lower case, and for any number of pieces. */
  lemma LowerAcross(a: string, c: char, b: string, p: string)
    requires c !in p && p != [] && LowerChar(c) == c
    ensures Contains(Lower(a + ([c] + b)), p) <==> Contains(Lower(a), p) || Contains(Lower(b), p)
  {
    assert Lower(a + ([c] + b)) == Lower(a) + ([c] + Lower(b));
    ContainsAcross(Lower(a), c, Lower(b), p);
  }

  lemma {:induction false} ContainsInPhrase(phrases: seq<string>, p: string)
    requires ' ' !in p && p != []
    ensures Contains(Lower(Join([' '], phrases)), p) <==> exists k | 0 <= k < |phrases| :: Contains(Lower(phrases[k]), p)
  {
    hide Lower, Contains;
    if |phrases| == 0 {
      EmptyContainsNothing(p);
    } else if |phrases| > 1 {
      ContainsInPhrase(phrases[1..], p);
      LowerAcross(phrases[0], ' ', Join([' '], phrases[1..]), p);
      assert forall k | 1 <= k < |phrases| :: phrases[k] == phrases[1..][k - 1];
      assert Join([' '], phrases) == phrases[0] + ([' '] + Join([' '], phrases[1..])) by {
        Assoc(phrases[0], [' '], Join([' '], phrases[1..]));
      }
    }
  }

  lemma EmptyContainsNothing(p: string)
    requires p != []
    ensures !Contains(Lower([]), p)
  {}

  /** A text without one of the pattern's letters cannot contain it. */
  lemma LacksLetter(a: string, p: string, x: char, upper: char)
    requires x in p && 'a' <= x <= 'z' && x != 'k' && LowerChar(upper) == x && upper != x
    requires x !in a && upper !in a
    ensures !Contains(Lower(a), p)
  {
    forall k | 0 <= k < |a| ensures Lower(a)[k] != x {
      assert a[k] in a;
    }
    forall i | 0 <= i <= |a| - |p| ensures !Occurs(Lower(a), p, i) {
      var k :| 0 <= k < |p| && p[k] == x;
      assert Lower(a)[i..i + |p|][k] == Lower(a)[i + k];
    }
  }

  const HASH: string := ['h', 'a', 's', 'h']
  const HMAC: string := ['h', 'm', 'a', 'c']

  lemma MismatchHasNoHmac()
    ensures !Contains(Lower(MISMATCH), HMAC)
  {
    var w := Lower(MISMATCH);
    forall i | 0 <= i <= |w| - 4 ensures !Occurs(w, HMAC, i) {
      assert w[i..i + 4][0] == w[i];
      assert w[0] == 'm' && w[1] == 'i' && w[2] == 's' && w[3] == 'm' && w[4] == 'a' && w[5] == 't';
    }
  }

  lemma RecordHmacIsHmac()
    ensures Contains(Lower(RECORD_HMAC), HMAC)
  {
    var l := Lower(RECORD_HMAC);
    assert l[7..11] == HMAC;
    assert Occurs(l, HMAC, 7);
  }

  lemma OutputsHashIsHash()
    ensures Contains(Lower(OUTPUTS_HASH), HASH)
  {
    var l := Lower(OUTPUTS_HASH);
    assert l[14..18] == HASH;
    assert Occurs(l, HASH, 14);
  }

  lemma RecordHmacLacksHash()
    ensures !Contains(Lower(RECORD_HMAC), HASH)
    ensures !Contains(Lower(FAILED), HASH)
  {
    hide Contains, Lower;
    LacksLetter(RECORD_HMAC, HASH, 's', 'S');
    LacksLetter(FAILED, HASH, 'h', 'H');
  }

  lemma MetadataLacksHash()
    ensures !Contains(Lower(THE), HASH)
    ensures !Contains(Lower(METADATA), HASH)
  {
    hide Contains, Lower;
    LacksLetter(THE, HASH, 's', 'S');
    LacksLetter(METADATA, HASH, 'h', 'H');
  }

  lemma DecisionLacksHash()
    ensures !Contains(Lower(DECISION_ID), HASH)
  {
    hide Contains, Lower;
    LacksLetter(DECISION_ID, HASH, 'h', 'H');
  }

  lemma WrittenAtLacksHash()
    ensures !Contains(Lower(WRITTEN_AT), HASH)
  {
    hide Contains, Lower;
    LacksLetter(WRITTEN_AT, HASH, 'h', 'H');
  }

  lemma HaveBeenLacksHash()
    ensures !Contains(Lower(HAVE_BEEN), HASH)
  {
    hide Contains, Lower;
    LacksLetter(HAVE_BEEN, HASH, 's', 'S');
  }

  lemma WrongLacksHash()
    ensures !Contains(Lower(WRONG), HASH)
  {
    hide Contains, Lower;
    LacksLetter(WRONG, HASH, 's', 'S');
  }

  lemma SigningKeyLacksHash()
    ensures !Contains(Lower(SIGNING_KEY), HASH)
  {
    hide Contains, Lower;
    LacksLetter(SIGNING_KEY, HASH, 'h', 'H');
  }

  lemma MismatchLacksHmac()
    ensures !Contains(Lower(OUTPUTS_HASH), HMAC) && !Contains(Lower(STORED), HMAC)
    ensures !Contains(Lower(RECOMPUTED), HMAC)
  {
    hide Contains, Lower;
    LacksLetter(OUTPUTS_HASH, HMAC, 'm', 'M');
    LacksLetter(STORED, HMAC, 'h', 'H');
    LacksLetter(RECOMPUTED, HMAC, 'h', 'H');
  }

  lemma AgentOutputsLacksHmac()
    ensures !Contains(Lower(AGENT_OUTPUTS), HMAC)
  {
    hide Contains, Lower;
    LacksLetter(AGENT_OUTPUTS, HMAC, 'm', 'M');
  }

  lemma TamperedLacksHmac()
    ensures !Contains(Lower(TAMPERED), HMAC)
  {
    hide Contains, Lower;
    LacksLetter(TAMPERED, HMAC, 'c', 'C');
  }

  lemma DotsDoNotMatter(s: string, p: string)
    requires '.' !in p && p != []
    ensures Contains(Lower(s + DOTS), p) == Contains(Lower(s), p)
  {
    hide Contains, Lower;
    LowerAcross(s, '.', ['.', '.'], p);
    LowerAcross([], '.', ['.'], p);
    LowerAcross([], '.', [], p);
    EmptyContainsNothing(p);
    assert [] + (['.'] + ['.']) == ['.', '.'] && [] + (['.'] + []) == ['.'];
    assert s + DOTS == s + (['.'] + ['.', '.']);
  }

  lemma MetadataFlags()
    ensures !Contains(Lower(METADATA_MISMATCH), HASH)
    ensures Contains(Lower(METADATA_MISMATCH), HMAC)
  {
    hide Contains, Lower, Join, RECORD_HMAC, FAILED, THE, METADATA, DECISION_ID, WRITTEN_AT, HAVE_BEEN, WRONG, SIGNING_KEY;
    var phrases := [RECORD_HMAC, FAILED, THE, METADATA, DECISION_ID, WRITTEN_AT, HAVE_BEEN, WRONG, SIGNING_KEY];
    RecordHmacLacksHash();
    MetadataLacksHash();
    DecisionLacksHash();
    WrittenAtLacksHash();
    HaveBeenLacksHash();
    WrongLacksHash();
    SigningKeyLacksHash();
    RecordHmacIsHmac();
    ContainsInPhrase(phrases, HASH);
    ContainsInPhrase(phrases, HMAC);
    assert phrases[0] == RECORD_HMAC;
  }

  lemma MismatchFlags(stored: string, recomputed: string)
    requires Digest(recomputed)
    ensures Contains(Lower(HashMismatch(stored, recomputed)), HASH)
    ensures Contains(Lower(HashMismatch(stored, recomputed)), HMAC) <==> Contains(Lower(Prefix16(stored)), HMAC)
  {
    hide Contains, Lower, Join, OUTPUTS_HASH, MISMATCH, STORED, RECOMPUTED, AGENT_OUTPUTS, TAMPERED, DOTS;
    var p, q := Prefix16(stored), Prefix16(recomputed);
    var phrases := [OUTPUTS_HASH, MISMATCH, STORED, p + DOTS, RECOMPUTED, q + DOTS, AGENT_OUTPUTS, TAMPERED];
    OutputsHashIsHash();
    MismatchHasNoHmac();
    MismatchLacksHmac();
    AgentOutputsLacksHmac();
    TamperedLacksHmac();
    LacksLetter(q, HMAC, 'h', 'H');
    DotsDoNotMatter(p, HMAC);
    DotsDoNotMatter(q, HMAC);
    ContainsInPhrase(phrases, HASH);
    ContainsInPhrase(phrases, HMAC);
    assert phrases[0] == OUTPUTS_HASH && phrases[3] == p + DOTS;
  }

  /** The stored hash spells "hmac", in any case, within its first sixteen characters. */
  ghost predicate SpellsHmac(hash: string) { exists i: nat :: SpelledAt(hash, i) }

  ghost predicate SpelledAt(hash: string, i: nat) {
    i <= 12 && i + 4 <= |hash| && Lower(hash)[i..i + 4] == ['h', 'm', 'a', 'c']
  }

  lemma SpelledInPrefix(hash: string)
    ensures Contains(Lower(Prefix16(hash)), HMAC) <==> SpellsHmac(hash)
  {
    var p := Lower(Prefix16(hash));
    assert p == Lower(hash)[..|p|];
    forall i: nat | i + 4 <= |p| ensures Occurs(p, HMAC, i) <==> SpelledAt(hash, i) {
      assert p[i..i + 4] == Lower(hash)[i..i + 4];
    }
    if SpellsHmac(hash) {
      var i: nat :| SpelledAt(hash, i);
      assert Occurs(p, HMAC, i);
    }
  }

  // ---- the flags ----

  /** What verify_by_decision_id reports after a full verification that raised nothing: valid
      exactly when both flags are up; a bad signature lowers only the hmac flag; a bad hash
      lowers the hash flag, and the hmac flag too exactly when the stored hash itself spells
      "hmac" within its first sixteen characters. */
  lemma FlagsNameTheCheck(c: Crypto, s: KeyState, storedHash: string, storedHmac: string, outputs: PyValue,
                          decision: string, version: string, at: DateTime)
    requires c.Lawful()
    requires VerifyIntegrity(c, s, storedHash, storedHmac, outputs, decision, version, at).Ok?
    ensures var v := VerifyIntegrity(c, s, storedHash, storedHmac, outputs, decision, version, at).value;
            var hashMatches := Lower(storedHash) == HashAgentOutputs(c, outputs).value;
            && FlagOf(v, HASH) == hashMatches
            && FlagOf(v, HMAC) == (if hashMatches then v.valid else !SpellsHmac(storedHash))
            && (v.valid ==> hashMatches)
  {
    hide Contains, SpellsHmac, METADATA_MISMATCH, HashMismatch, Verify, Message, Serialise, AsciiText, Lower, Digest;
    var h := HashAgentOutputs(c, outputs).value;
    LowerDigest(h);
    MetadataFlags();
    MismatchFlags(storedHash, h);
    SpelledInPrefix(storedHash);
  }

  /** A stored hash in hex never spells it, so exactly one flag is down on failure. */
  lemma HexNamesOneCheck(c: Crypto, s: KeyState, storedHash: string, storedHmac: string, outputs: PyValue,
                         decision: string, version: string, at: DateTime)
    requires c.Lawful() && forall k | 0 <= k < |storedHash| :: LowerHex(LowerChar(storedHash[k]))
    requires VerifyIntegrity(c, s, storedHash, storedHmac, outputs, decision, version, at).Ok?
    ensures var v := VerifyIntegrity(c, s, storedHash, storedHmac, outputs, decision, version, at).value;
            !v.valid ==> FlagOf(v, HASH) == !FlagOf(v, HMAC)
  {
    hide Contains, SpellsHmac, FlagOf, VerifyIntegrity, Digest;
    FlagsNameTheCheck(c, s, storedHash, storedHmac, outputs, decision, version, at);
    LacksLetter(Prefix16(storedHash), HMAC, 'h', 'H');
    SpelledInPrefix(storedHash);
  }

  /** The other case is real: a stored hash "hmac" lowers both flags, whatever the outputs. */
  lemma BothFlagsDown(c: Crypto, s: KeyState, storedHmac: string, outputs: PyValue, decision: string,
                      version: string, at: DateTime)
    requires c.Lawful() && HashAgentOutputs(c, outputs).Ok?
    ensures var v := VerifyIntegrity(c, s, HMAC, storedHmac, outputs, decision, version, at);
            v.Ok? && !v.value.valid && !FlagOf(v.value, HASH) && !FlagOf(v.value, HMAC)
  {
    hide FlagOf, Message, Serialise, Verify, HashMismatch;
    LowerDigest(HashAgentOutputs(c, outputs).value);
    assert Lower(HMAC) == HMAC;
    FlagsNameTheCheck(c, s, HMAC, storedHmac, outputs, decision, version, at);
    assert SpelledAt(HMAC, 0);
  }

  // ---- full verification against the signature alone ----

  /** For a lowercase stored hash, full verification succeeds exactly when the hash matches
      and the check without the payload succeeds. */
  lemma FullIsHashAndHmac(c: Crypto, s: KeyState, r: AuditRecord, outputs: PyValue)
    requires c.Lawful() && HashAgentOutputs(c, outputs).Ok? && HmacOnly(c, s, r).Ok?
    requires Lower(r.hash) == r.hash && AsciiText(r.hash)
    ensures FullVerification(c, s, r, outputs).Ok?
    ensures FullVerification(c, s, r, outputs).value.valid
            <==> r.hash == HashAgentOutputs(c, outputs).value && HmacOnly(c, s, r) == Ok(true)
  {
    hide Message, Serialise, Verify, Lower, Digest, AsciiText, HashMismatch, METADATA_MISMATCH;
    LowerDigest(HashAgentOutputs(c, outputs).value);
  }

  /** The message that was signed and the one that the check without the payload builds. */
  function Recomputed(r: AuditRecord): string
    requires Serialise(r.writtenAt).Some?
  {
    Message(Lower(r.hash), r.decision, r.version, Serialise(r.writtenAt).value)
  }

  function AsStored(r: AuditRecord): string
    requires Serialise(r.writtenAt).Some?
  {
    Message(r.hash, r.decision, r.version, Serialise(r.writtenAt).value)
  }

  /** Full verification signs the recomputed hash, the other check the stored one. So when a
      record genuinely signed with key k, current or previous, holds its hash in other letter
      case, the first accepts it; the second does so exactly when the stored hash is
      lowercase. */
  lemma LetterCaseMatters(c: Crypto, s: KeyState, r: AuditRecord, outputs: PyValue, k: Key)
    requires c.Lawful() && HashAgentOutputs(c, outputs) == Ok(Lower(r.hash))
    requires '|' !in r.hash && '|' !in r.decision && '|' !in r.version && Serialise(r.writtenAt).Some?
    requires CurrentKey(s).Ok? && (CurrentKey(s).value == k || PreviousKey(s) == Some(k))
    requires r.hmac == c.mac(k, Recomputed(r))
    requires NoMacCollision(c, k, Recomputed(r), CurrentKey(s).value, AsStored(r))
    requires PreviousKey(s).Some? ==> NoMacCollision(c, k, Recomputed(r), PreviousKey(s).value, AsStored(r))
    ensures FullVerification(c, s, r, outputs) == Ok(Verdict(true, []))
    ensures HmacOnly(c, s, r) == Ok(Lower(r.hash) == r.hash)
  {
    hide Message, Serialise, CurrentKey, PreviousKey, Verify, HashMismatch, METADATA_MISMATCH, HashAgentOutputs, Lower,
         Digest, AsciiText;
    var h := Lower(r.hash);
    DigestOf(c, outputs);
    LowerDigest(h);
    LowerDigest(r.hmac);
    VerifyMeans(c, s, r.hmac, Recomputed(r));
    VerifyMeans(c, s, r.hmac, AsStored(r));
    NoBarInDigest(h);
    MessageInjective(h, r.decision, r.version, Serialise(r.writtenAt).value,
                     r.hash, r.decision, r.version, Serialise(r.writtenAt).value);
  }

  lemma NoBarInDigest(s: string)
    requires Digest(s)
    ensures '|' !in s
  {}

  lemma DigestOf(c: Crypto, outputs: PyValue)
    requires c.Lawful() && HashAgentOutputs(c, outputs).Ok?
    ensures Digest(HashAgentOutputs(c, outputs).value)
  {}
}
