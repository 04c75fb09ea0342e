// security/hmac_utils.py: content hashes, record signatures and the key caches. SHA-256 and
// HMAC-SHA256 are parameters; nothing is assumed of them but the form of a hex digest.
module HmacUtils {
  import opened Json
  import opened CanonicalForm
  import opened Results

  newtype byte = x: int | 0 <= x < 256
  type Key = seq<byte>

  predicate LowerHex(c: char) { '0' <= c <= '9' || 'a' <= c <= 'f' }

  /** What hexdigest returns for a 256-bit digest. */
  predicate Digest(s: string) {
    |s| == 64 && forall k | 0 <= k < 64 :: LowerHex(s[k])
  }

  datatype Crypto = Crypto(sha: string -> string, mac: (Key, string) -> string) {
    ghost predicate Lawful() {
      && (forall t: string :: Digest(sha(t)))
      && (forall k: Key, m: string :: Digest(mac(k, m)))
    }
  }

  // ---- str.lower and hmac.compare_digest ----

  /** str.lower on ASCII and on the Kelvin sign, the one other character whose lower case is
      ASCII. The rest stays outside ASCII, which is all that matters here. */
  function LowerChar(c: char): char {
    if 'A' <= c <= 'Z' then (c as int + 32) as char
    else if c as int == 0x212A then 'k'
    else c
  }

  function Lower(s: string): (r: string)
    ensures |r| == |s|
  {
    seq(|s|, i requires 0 <= i < |s| => LowerChar(s[i]))
  }

  predicate AsciiText(s: string) {
    forall k | 0 <= k < |s| :: s[k] as int < 128
  }

  /** Comparing two str values raises TypeError when one of them is not ASCII. */
  function CompareDigest(a: string, b: string): Outcome<bool> {
    if AsciiText(a) && AsciiText(b) then Ok(a == b) else Raised(TypeError)
  }

  lemma LowerDigest(s: string)
    requires Digest(s)
    ensures Lower(s) == s && AsciiText(s)
  {}

  /** hmac.compare_digest on str: equality, and TypeError exactly when a character of either is
      not ASCII. */
  lemma ComparedExactly(a: string, b: string)
    ensures CompareDigest(a, b) == Raised(TypeError) <==> exists c :: c in a + b && c as int >= 128
    ensures CompareDigest(a, b) == Ok(true) <==> a == b && forall c <- a :: c as int < 128
    ensures CompareDigest(a, b).Raised? ==> CompareDigest(a, b) == Raised(TypeError)
  {
    if !AsciiText(a) {
      var k :| 0 <= k < |a| && a[k] as int >= 128;
      assert a[k] in a + b;
    }
    if !AsciiText(b) {
      var k :| 0 <= k < |b| && b[k] as int >= 128;
      assert b[k] in a + b;
    }
  }

  /** On ASCII, str.lower maps the capitals to the small letters and nothing else; from outside
      only the Kelvin sign gets there. */
  lemma LowerCase(capitals: string, small: string)
    requires capitals == "ABCDEFGHIJKLMNOPQRSTUVWXYZ" && small == "abcdefghijklmnopqrstuvwxyz"
    ensures Lower(capitals) == small
    ensures forall c: char | c as int < 128 && c !in capitals :: LowerChar(c) == c
    ensures forall c: char | c as int >= 128 :: if c as int == 0x212A then LowerChar(c) == 'k' else LowerChar(c) as int >= 128
  {
    forall c: char | 'A' <= c <= 'Z' ensures c in capitals { assert capitals[c as int - 65] == c; }
  }

  /** A digest is made of the digits that hexdigest writes. */
  lemma HexDigitsAre(c: char)
    ensures LowerHex(c) <==> exists d: nat :: d < 16 && HexDigit(d) == c
  {
    if LowerHex(c) {
      var d := if c <= '9' then c as int - '0' as int else c as int - 'a' as int + 10;
      assert HexDigit(d) == c;
    }
  }

  // ---- hashing ----

  /** bool(v) is False. */
  predicate Falsy(v: PyValue) {
    match v
    case PyNone => true
    case PyBool(b) => !b
    case PyInt(n) => n == 0
    case PyFloat(l) => l == "0.0" || l == "-0.0"
    case PyStr(s) => s == []
    case PyList(items) => items == []
    case PyDict(entries) => entries == []
    case _ => false
  }

  function HashAgentOutputs(c: Crypto, outputs: PyValue): Outcome<string> {
    if Falsy(outputs) then Raised(ValueError)
    else
      var text := CanonicalJson(outputs);
      if text.None? then Raised(TypeError) else Ok(c.sha(text.value))
  }

  /** The outputs that are refused: what Python takes for false. */
  lemma RefusedOutputs(c: Crypto, v: PyValue)
    ensures HashAgentOutputs(c, v) == Raised(ValueError)
            <==> || v == PyNone || v == PyBool(false) || v == PyInt(0) || v == PyFloat("0.0") || v == PyFloat("-0.0")
                 || v == PyStr("") || v == PyList([]) || v == PyDict([])
  {
    hide CanonicalJson;
  }

  // ---- the signed message ----

  function Message(hash: string, decision: string, version: string, written: string): string {
    hash + (['|'] + (decision + (['|'] + (version + (['|'] + written)))))
  }

  lemma FirstBar(a: string, x: string, b: string, y: string)
    requires '|' !in a && '|' !in b && a + (['|'] + x) == b + (['|'] + y)
    ensures a == b && x == y
  {
    var s := a + (['|'] + x);
    assert s[|a|] == '|' && s[|b|] == '|';
    assert forall k | 0 <= k < |a| :: s[k] == a[k];
    assert forall k | 0 <= k < |b| :: s[k] == b[k];
    assert |a| == |b|;
    assert a == s[..|a|] && b == s[..|a|];
    assert x == s[|a| + 1..] && y == s[|a| + 1..];
  }

  /** With pipe-free ids the message determines its four fields. */
  lemma MessageInjective(h: string, d: string, v: string, w: string, h': string, d': string, v': string, w': string)
    requires '|' !in h && '|' !in h' && '|' !in d && '|' !in d' && '|' !in v && '|' !in v'
    ensures Message(h, d, v, w) == Message(h', d', v', w') <==> h == h' && d == d' && v == v' && w == w'
  {
    if Message(h, d, v, w) == Message(h', d', v', w') {
      FirstBar(h, d + (['|'] + (v + (['|'] + w))), h', d' + (['|'] + (v' + (['|'] + w'))));
      FirstBar(d, v + (['|'] + w), d', v' + (['|'] + w'));
      FirstBar(v, w, v', w');
    }
  }

  // ---- keys ----

  predicate AsciiSpace(c: char) { c == ' ' || 9 <= c as int <= 13 }

  /** bytes.fromhex: pairs of hex digits, white space allowed between pairs. */
  function FromHex(raw: string): Option<Key> {
    if raw == [] then Some([])
    else if AsciiSpace(raw[0]) then FromHex(raw[1..])
    else if |raw| >= 2 && IsHex(raw[0]) && IsHex(raw[1]) then
      var rest := FromHex(raw[2..]);
      if rest.None? then None
      else Some([(16 * HexValue(raw[0]) + HexValue(raw[1])) as byte] + rest.value)
    else None
  }

  /** secrets.token_hex writes a key like this. */
  function ToHex(key: Key): string {
    if key == [] then [] else [HexDigit(key[0] as nat / 16), HexDigit(key[0] as nat % 16)] + ToHex(key[1..])
  }

  lemma EmptyHex()
    ensures FromHex([]) == Some([])
  {}

  lemma HexPair(pair: string, hi: nat, lo: nat, rest: string)
    requires hi < 16 && lo < 16 && pair == [HexDigit(hi), HexDigit(lo)] && FromHex(rest).Some?
    ensures FromHex(pair + rest) == Some([(16 * hi + lo) as byte] + FromHex(rest).value)
  {
    assert (pair + rest)[2..] == rest && (pair + rest)[0] == pair[0] && (pair + rest)[1] == pair[1];
    assert !AsciiSpace(pair[0]);
    assert HexValue(pair[0]) == hi && HexValue(pair[1]) == lo;
  }

  lemma {:induction false} FromHexToHex(key: Key)
    ensures FromHex(ToHex(key)) == Some(key) && |ToHex(key)| == 2 * |key|
  {
    hide FromHex;
    if key == [] {
      assert FromHex([]) == Some([]) by { EmptyHex(); }
    } else {
      var b := key[0] as nat;
      var pair := [HexDigit(b / 16), HexDigit(b % 16)];
      FromHexToHex(key[1..]);
      HexPair(pair, b / 16, b % 16, ToHex(key[1..]));
      assert key == [key[0]] + key[1..];
    }
  }

  /** Blanks, tabs and line ends may stand before a pair of digits. */
  lemma BlanksSkipped(raw: string, c: char)
    requires c in " \t\n\r\U{0b}\U{0c}"
    ensures FromHex([c] + raw) == FromHex(raw)
  {
    assert ([c] + raw)[1..] == raw;
  }

  /** Anything else that is no hex digit is refused. */
  lemma {:induction false} OnlyHexText(raw: string, k: nat)
    requires FromHex(raw).Some? && k < |raw|
    ensures IsHex(raw[k]) || raw[k] in " \t\n\r\U{0b}\U{0c}"
    decreases |raw|
  {
    if AsciiSpace(raw[0]) {
      AsciiSpaces(raw[0]);
      if k > 0 { OnlyHexText(raw[1..], k - 1); }
    } else if k > 1 {
      OnlyHexText(raw[2..], k - 2);
    }
  }

  lemma AsciiSpaces(c: char)
    requires AsciiSpace(c)
    ensures c in " \t\n\r\U{0b}\U{0c}"
  {
    var s := " \t\n\r\U{0b}\U{0c}";
    assert s[0] == ' ' && s[1] == '\t' && s[2] == '\n' && s[3] == '\r' && s[4] as int == 11 && s[5] as int == 12;
  }

  /** _load_hmac_key on the value of the variable; an unset one reads as "". */
  function LoadKey(raw: string): Outcome<Key> {
    if raw == [] then Raised(RuntimeError)
    else
      var key := FromHex(raw);
      if key.None? || |key.value| != 32 then Raised(RuntimeError) else Ok(key.value)
  }

  /** The hex form of a key is loaded, as that key, exactly when the key has 32 bytes. */
  lemma KeyLoads(key: Key)
    ensures LoadKey(ToHex(key)) == if |key| == 32 then Ok(key) else Raised(RuntimeError)
  {
    hide FromHex, ToHex;
    FromHexToHex(key);
  }

  /** The two environment variables and the two module globals that cache the keys. */
  datatype KeyState = KeyState(envCurrent: string, envPrevious: string,
                               current: Option<Key>, previous: Option<Key>)

  function CurrentKey(s: KeyState): Outcome<Key> {
    if s.current.Some? then Ok(s.current.value) else LoadKey(s.envCurrent)
  }

  /** No length check here, and a malformed value counts as none. */
  function PreviousKey(s: KeyState): Option<Key> {
    if s.previous.Some? then s.previous
    else if s.envPrevious == [] then None
    else FromHex(s.envPrevious)
  }

  function CacheCurrent(s: KeyState): KeyState {
    if CurrentKey(s).Ok? then s.(current := Some(CurrentKey(s).value)) else s
  }

  function CachePrevious(s: KeyState): KeyState { s.(previous := PreviousKey(s)) }

  /** A key in its cache is used whatever the environment says by now, and a load that
      succeeds fills the cache. */
  lemma CachedKeysStay(s: KeyState, raw: string)
    requires CurrentKey(s).Ok?
    ensures CurrentKey(CacheCurrent(s).(envCurrent := raw)) == CurrentKey(s)
    ensures PreviousKey(s).Some? ==> PreviousKey(CachePrevious(s).(envPrevious := raw)) == PreviousKey(s)
    ensures LoadKey(s.envCurrent) != CurrentKey(s) ==> s.current.Some?
  {
    hide FromHex, LoadKey;
  }

  /** compute_record_hmac */
  function Sign(c: Crypto, s: KeyState, message: string): Outcome<string> {
    var key := CurrentKey(s);
    if key.Raised? then Raised(key.error) else Ok(c.mac(key.value, message))
  }

  /** verify_record_hmac: the current key first, then the previous one. */
  function Verify(c: Crypto, s: KeyState, stored: string, message: string): Outcome<bool> {
    var key := CurrentKey(s);
    if key.Raised? then Raised(key.error)
    else
      var first := CompareDigest(Lower(stored), Lower(c.mac(key.value, message)));
      if first != Ok(false) || PreviousKey(s).None? then first
      else CompareDigest(Lower(stored), Lower(c.mac(PreviousKey(s).value, message)))
  }

  /** The caches after a verification: the previous key is looked up only when the current
      one did not match. */
  function AfterVerify(c: Crypto, s: KeyState, stored: string, message: string): KeyState {
    var key := CurrentKey(s);
    if key.Raised? then s
    else if CompareDigest(Lower(stored), Lower(c.mac(key.value, message))) == Ok(false)
    then CachePrevious(CacheCurrent(s))
    else CacheCurrent(s)
  }

  /** The signature is accepted exactly when it is, up to letter case, what the current or
      the previous key gives. */
  lemma VerifyMeans(c: Crypto, s: KeyState, stored: string, message: string)
    requires c.Lawful() && CurrentKey(s).Ok? && AsciiText(Lower(stored))
    ensures Verify(c, s, stored, message)
            == Ok(Lower(stored) == c.mac(CurrentKey(s).value, message)
                  || (PreviousKey(s).Some? && Lower(stored) == c.mac(PreviousKey(s).value, message)))
  {
    LowerDigest(c.mac(CurrentKey(s).value, message));
    if PreviousKey(s).Some? { LowerDigest(c.mac(PreviousKey(s).value, message)); }
  }

  /** What a verification leaves in the caches: the current key, and the previous one if the
      signature is not the current key's. */
  lemma VerifyCaches(c: Crypto, s: KeyState, stored: string, message: string)
    requires c.Lawful() && AsciiText(Lower(stored))
    ensures var t := AfterVerify(c, s, stored, message);
            if CurrentKey(s).Raised? then t == s
            else
              && t.current == Some(CurrentKey(s).value) && t.envCurrent == s.envCurrent && t.envPrevious == s.envPrevious
              && t.previous == if Lower(stored) == c.mac(CurrentKey(s).value, message) then s.previous else PreviousKey(s)
  {
    hide FromHex, LoadKey;
    if CurrentKey(s).Ok? { LowerDigest(c.mac(CurrentKey(s).value, message)); }
  }

  /** Filling the caches changes no key. */
  predicate SameKeys(s: KeyState, t: KeyState) {
    && t.envCurrent == s.envCurrent && t.envPrevious == s.envPrevious
    && CurrentKey(t) == CurrentKey(s) && PreviousKey(t) == PreviousKey(s)
  }

  lemma VerifyKeepsKeys(c: Crypto, s: KeyState, stored: string, message: string)
    ensures SameKeys(s, AfterVerify(c, s, stored, message))
  {
    hide FromHex, LoadKey, CompareDigest;
  }

  class KeyCache {
    var envCurrent: string
    var envPrevious: string
    var serverKey: Option<Key>
    var serverKeyPrevious: Option<Key>

    function State(): KeyState
      reads this
    {
      KeyState(envCurrent, envPrevious, serverKey, serverKeyPrevious)
    }

    constructor (current: string, previous: string)
      ensures State() == KeyState(current, previous, None, None)
    {
      envCurrent, envPrevious, serverKey, serverKeyPrevious := current, previous, None, None;
    }

    method GetServerKey() returns (r: Outcome<Key>)
      modifies this
      ensures r == CurrentKey(old(State()))
      ensures State() == CacheCurrent(old(State()))
    {
      if serverKey.None? {
        var loaded := LoadKey(envCurrent);
        if loaded.Raised? { return Raised(loaded.error); }
        serverKey := Some(loaded.value);
      }
      return Ok(serverKey.value);
    }

    method GetPreviousKey() returns (r: Option<Key>)
      modifies this
      ensures r == PreviousKey(old(State()))
      ensures State() == CachePrevious(old(State()))
    {
      if serverKeyPrevious.None? {
        if envPrevious == [] { return None; }
        var parsed := FromHex(envPrevious);
        if parsed.None? { return None; }
        serverKeyPrevious := parsed;
      }
      return serverKeyPrevious;
    }

    method Invalidate()
      modifies this
      ensures State() == old(State()).(current := None, previous := None)
    {
      serverKey, serverKeyPrevious := None, None;
    }

    method ComputeRecordHmac(c: Crypto, hash: string, decision: string, version: string, written: string)
      returns (r: Outcome<string>)
      modifies this
      ensures r == Sign(c, old(State()), Message(hash, decision, version, written))
      ensures State() == CacheCurrent(old(State()))
    {
      var key := GetServerKey();
      if key.Raised? { return Raised(key.error); }
      return Ok(c.mac(key.value, Message(hash, decision, version, written)));
    }

    method VerifyRecordHmac(c: Crypto, stored: string, hash: string, decision: string, version: string,
                            written: string)
      returns (r: Outcome<bool>)
      modifies this
      ensures r == Verify(c, old(State()), stored, Message(hash, decision, version, written))
      ensures State() == AfterVerify(c, old(State()), stored, Message(hash, decision, version, written))
    {
      var message := Message(hash, decision, version, written);
      var currentKey := GetServerKey();
      if currentKey.Raised? { return Raised(currentKey.error); }
      r := CompareDigest(Lower(stored), Lower(c.mac(currentKey.value, message)));
      if r.Raised? || r.value { return; }
      var previousKey := GetPreviousKey();
      if previousKey.Some? {
        r := CompareDigest(Lower(stored), Lower(c.mac(previousKey.value, message)));
      }
    }

    /** Key rotation: the current key becomes the previous one, and the caches are cleared. */
    method Rotate(raw: string)
      modifies this
      ensures State() == KeyState(raw, old(envCurrent), None, None)
    {
      envPrevious := envCurrent;
      envCurrent := raw;
      Invalidate();
    }
  }

  // ---- runs of signing, verifying and rotating ----

  datatype Op =
    | SignOp(message: string)
    | VerifyOp(stored: string, message: string)
    | RotateOp(raw: string)

  function Step(c: Crypto, s: KeyState, op: Op): KeyState {
    match op
    case SignOp(m) => CacheCurrent(s)
    case VerifyOp(stored, m) => AfterVerify(c, s, stored, m)
    case RotateOp(raw) => KeyState(raw, s.envCurrent, None, None)
  }

  function Run(c: Crypto, s: KeyState, ops: seq<Op>): KeyState {
    if ops == [] then s else Step(c, Run(c, s, ops[..|ops| - 1]), ops[|ops| - 1])
  }

  function Rotations(ops: seq<Op>): nat {
    if ops == [] then 0
    else Rotations(ops[..|ops| - 1]) + if ops[|ops| - 1].RotateOp? then 1 else 0
  }

  /** The key of every epoch, oldest first. */
  function Epochs(first: Key, ops: seq<Op>): (keys: seq<Key>)
    requires forall op <- ops :: op.RotateOp? ==> LoadKey(op.raw).Ok?
    ensures |keys| == Rotations(ops) + 1
  {
    if ops == [] then [first]
    else
      var last := ops[|ops| - 1];
      Epochs(first, ops[..|ops| - 1]) + if last.RotateOp? then [LoadKey(last.raw).value] else []
  }

  /** Fresh caches hold what the environment says. */
  predicate Coherent(s: KeyState) {
    && (s.current.Some? ==> LoadKey(s.envCurrent) == Ok(s.current.value))
    && (s.previous.Some? ==> s.envPrevious != [] && FromHex(s.envPrevious) == s.previous)
  }

  lemma StepKeys(c: Crypto, s: KeyState, op: Op)
    requires Coherent(s) && LoadKey(s.envCurrent).Ok? && (op.RotateOp? ==> LoadKey(op.raw).Ok?)
    ensures var t := Step(c, s, op);
            && CurrentKey(s).Ok? && Coherent(t)
            && LoadKey(t.envCurrent) == CurrentKey(t) == (if op.RotateOp? then LoadKey(op.raw) else CurrentKey(s))
            && PreviousKey(t) == (if op.RotateOp? then Some(CurrentKey(s).value) else PreviousKey(s))
  {
    hide FromHex, CompareDigest;
  }

  /** Throughout a run the current key is the last epoch's and, after a rotation, the previous
      key is the one of the epoch before. */
  lemma {:induction false} RunKeys(c: Crypto, s: KeyState, ops: seq<Op>)
    requires Coherent(s) && LoadKey(s.envCurrent).Ok?
    requires forall op <- ops :: op.RotateOp? ==> LoadKey(op.raw).Ok?
    ensures var t, keys := Run(c, s, ops), Epochs(LoadKey(s.envCurrent).value, ops);
            && Coherent(t) && LoadKey(t.envCurrent) == CurrentKey(t) == Ok(keys[|keys| - 1])
            && (|keys| > 1 ==> PreviousKey(t) == Some(keys[|keys| - 2]))
  {
    hide LoadKey, Coherent, CurrentKey, PreviousKey, Step, Rotations;
    if ops != [] {
      var front := ops[..|ops| - 1];
      RunKeys(c, s, front);
      StepKeys(c, Run(c, s, front), ops[|ops| - 1]);
    } else {
      FreshKeys(s);
    }
  }

  lemma FreshKeys(s: KeyState)
    requires Coherent(s)
    ensures CurrentKey(s) == LoadKey(s.envCurrent)
  {}

  lemma {:induction false} EpochsPrefix(first: Key, ops: seq<Op>, n: nat)
    requires n <= |ops|
    requires forall op <- ops :: op.RotateOp? ==> LoadKey(op.raw).Ok?
    ensures Epochs(first, ops[..n]) <= Epochs(first, ops)
    ensures Rotations(ops) == Rotations(ops[..n]) + Rotations(ops[n..])
  {
    hide LoadKey;
    if n == |ops| {
      assert ops[..n] == ops && ops[n..] == [];
    } else {
      var front := ops[..|ops| - 1];
      assert front[..n] == ops[..n];
      assert ops[n..][..|ops[n..]| - 1] == front[n..];
      EpochsPrefix(first, front, n);
    }
  }

  /** The keys of a run tell the signatures of one message apart. */
  ghost predicate SeparatesKeys(c: Crypto, keys: seq<Key>, message: string) {
    forall a, b | 0 <= a < b < |keys| :: c.mac(keys[a], message) != c.mac(keys[b], message)
  }

  /** A record signed at step i of a run and checked at step j verifies exactly when at most
      one rotation lies between: in its own epoch and the next one, and not later. */
  lemma RotationWindow(c: Crypto, s: KeyState, ops: seq<Op>, i: nat, j: nat)
    requires c.Lawful() && Coherent(s) && LoadKey(s.envCurrent).Ok?
    requires forall op <- ops :: op.RotateOp? ==> LoadKey(op.raw).Ok?
    requires i <= j <= |ops| && i < |ops| && ops[i].SignOp?
    requires SeparatesKeys(c, Epochs(LoadKey(s.envCurrent).value, ops), ops[i].message)
    ensures var tag := Sign(c, Run(c, s, ops[..i]), ops[i].message);
            tag.Ok? && Verify(c, Run(c, s, ops[..j]), tag.value, ops[i].message) == Ok(Rotations(ops[i..j]) <= 1)
  {
    hide Run, LoadKey, Epochs, Sign, Verify, PreviousKey, CurrentKey, Coherent, Rotations, SeparatesKeys;
    var first, m := LoadKey(s.envCurrent).value, ops[i].message;
    var keys := Epochs(first, ops);
    RunKeys(c, s, ops[..i]);
    RunKeys(c, s, ops[..j]);
    EpochsPrefix(first, ops, i);
    EpochsPrefix(first, ops, j);
    EpochsPrefix(first, ops[..j], i);
    assert ops[..j][..i] == ops[..i] && ops[..j][i..] == ops[i..j];
    var a, b := Rotations(ops[..i]), Rotations(ops[..j]);
    assert a <= b < |keys|;
    assert keys[a] == Epochs(first, ops[..i])[a] && keys[b] == Epochs(first, ops[..j])[b];
    SignedThenVerified(c, Run(c, s, ops[..i]), Run(c, s, ops[..j]), m, keys, a, b);
  }

  lemma SignedThenVerified(c: Crypto, s: KeyState, t: KeyState, m: string, keys: seq<Key>, a: nat, b: nat)
    requires c.Lawful() && a <= b < |keys| && SeparatesKeys(c, keys, m)
    requires CurrentKey(s) == Ok(keys[a]) && CurrentKey(t) == Ok(keys[b])
    requires b > 0 ==> PreviousKey(t) == Some(keys[b - 1])
    ensures var tag := Sign(c, s, m);
            tag.Ok? && Verify(c, t, tag.value, m) == Ok(b - a <= 1)
  {
    hide Verify, PreviousKey, CurrentKey;
    var tag := Sign(c, s, m).value;
    LowerDigest(tag);
    VerifyMeans(c, t, tag, m);
  }
}
