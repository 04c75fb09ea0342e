// _split_into_sentences of retrieval/chunker.py: protect abbreviations, split at sentence
// ends, restore the abbreviations.
module Sentences {
  import opened Text
  import opened Decimal

  const ABBREVIATIONS: seq<string> := [
    "e.g.", "i.e.", "viz.", "etc.", "No.", "Rs.", "RBI.", "NBFC.",
    "KYC.", "AML.", "PAN.", "Sec.", "Art.", "Fig.", "Vol.", "para."
  ]

  /** All that is used of the abbreviations: they have a full stop and no underscore. */
  ghost predicate Usable(abbrs: seq<string>) {
    forall i | 0 <= i < |abbrs| :: '.' in abbrs[i] && '_' !in abbrs[i]
  }

  type Abbreviations = a: seq<string> | Usable(a) witness []

  lemma AbbreviationsUsable()
    ensures Usable(ABBREVIATIONS)
  {
    forall i | 0 <= i < |ABBREVIATIONS| ensures '.' in ABBREVIATIONS[i] && '_' !in ABBREVIATIONS[i] {
      var a := ABBREVIATIONS[i];
      assert a[|a| - 1] == '.';
    }
  }

  /** The text between the underscores of a placeholder. */
  function Core(i: nat): string { "ABBR" + Dec(i) }

  /** bar is "__" in the source; the proofs also use the one-underscore form. */
  function Placeholder(bar: string, i: nat): string { bar + Core(i) + bar }

  function ProtectFrom(abbrs: Abbreviations, bar: string, s: string, i: nat): string
    requires i <= |abbrs|
    decreases |abbrs| - i
  {
    if i == |abbrs| then s else ProtectFrom(abbrs, bar, Replace(s, abbrs[i], Placeholder(bar, i)), i + 1)
  }

  function RestoreFrom(abbrs: Abbreviations, bar: string, s: string, i: nat): string
    requires i <= |abbrs|
    decreases |abbrs| - i
  {
    if i == |abbrs| then s else RestoreFrom(abbrs, bar, Replace(s, Placeholder(bar, i), abbrs[i]), i + 1)
  }

  predicate SentenceEnd(c: char) { c == '.' || c == '!' || c == '?' }
  predicate SentenceStart(c: char) { 'A' <= c <= 'Z' || '0' <= c <= '9' || c == '(' }

  /** A run of white space is a split point when it follows a sentence end and a sentence
      start follows it. cur is the piece being read. */
  predicate SplitsHere(cur: string, t: string) {
    && cur != [] && SentenceEnd(cur[|cur| - 1]) && SpaceRun(t) > 0
    && SpaceRun(t) < |t| && SentenceStart(t[SpaceRun(t)])
  }

  function SplitRaw(cur: string, t: string): (pieces: seq<string>)
    decreases |t|
  {
    if t == [] then [cur]
    else if SplitsHere(cur, t) then [cur] + SplitRaw([], t[SpaceRun(t)..])
    else SplitRaw(cur + [t[0]], t[1..])
  }

  function Restored(abbrs: Abbreviations, bar: string, raw: seq<string>): seq<string> {
    if raw == [] then []
    else
      var s := Strip(RestoreFrom(abbrs, bar, raw[0], 0));
      (if s != [] then [s] else []) + Restored(abbrs, bar, raw[1..])
  }

  function SplitWith(abbrs: Abbreviations, bar: string, text: string): seq<string> {
    var sentences := Restored(abbrs, bar, SplitRaw([], ProtectFrom(abbrs, bar, text, 0)));
    if sentences == [] then [text] else sentences
  }

  function SplitSentences(text: string): seq<string> {
    AbbreviationsUsable();
    SplitWith(ABBREVIATIONS, "__", text)
  }

  lemma RestoredUnfold(abbrs: Abbreviations, bar: string, raw: seq<string>, k: nat)
    requires k < |raw|
    ensures var s := Strip(RestoreFrom(abbrs, bar, raw[k], 0));
            Restored(abbrs, bar, raw[k..]) == (if s != [] then [s] else []) + Restored(abbrs, bar, raw[k + 1..])
  {
    assert raw[k..][1..] == raw[k + 1..];
  }

  lemma RestoredNothing(abbrs: Abbreviations, bar: string)
    ensures Restored(abbrs, bar, []) == []
  {}

  method SplitIntoSentences(abbrs: Abbreviations, text: string) returns (sentences: seq<string>)
    ensures sentences == SplitWith(abbrs, "__", text)
  {
    hide Replace, Restored, SplitRaw, Strip;
    RestoredNothing(abbrs, "__");
    var protected := text;
    for i := 0 to |abbrs|
      invariant ProtectFrom(abbrs, "__", protected, i) == ProtectFrom(abbrs, "__", text, 0)
    {
      protected := Replace(protected, abbrs[i], Placeholder("__", i));
    }
    var raw := SplitRaw([], protected);
    sentences := [];
    assert raw[0..] == raw;
    for k := 0 to |raw|
      invariant sentences + Restored(abbrs, "__", raw[k..]) == Restored(abbrs, "__", raw)
    {
      var sent := raw[k];
      for i := 0 to |abbrs|
        invariant RestoreFrom(abbrs, "__", sent, i) == RestoreFrom(abbrs, "__", raw[k], 0)
      {
        sent := Replace(sent, Placeholder("__", i), abbrs[i]);
      }
      sent := Strip(sent);
      RestoredUnfold(abbrs, "__", raw, k);
      if sent != [] { sentences := sentences + [sent]; }
    }
    assert raw[|raw|..] == [] && sentences == Restored(abbrs, "__", raw);
    if sentences == [] { sentences := [text]; }
  }
}
