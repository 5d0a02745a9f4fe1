/** Reference text: stripping, upper case and the stem that links the parts of a group
    (src/recon/matching/strategies/group.py). ASCII only. */
module References {
  import opened Ledger

  const SEPARATORS := {'-', '_', '/', '.'}
  const MAX_STEM_SUFFIX := 6

  predicate IsSpace(c: char) {
    c == ' ' || 9 <= c as int <= 13 || 28 <= c as int <= 31
  }

  predicate Blank(s: string) {
    forall k :: 0 <= k < |s| ==> IsSpace(s[k])
  }

  function StripLeft(s: string): string {
    if s != "" && IsSpace(s[0]) then StripLeft(s[1..]) else s
  }

  function StripRight(s: string): string {
    if s != "" && IsSpace(s[|s| - 1]) then StripRight(s[..|s| - 1]) else s
  }

  function UpperChar(c: char): char {
    if 'a' <= c <= 'z' then (c as int - 'a' as int + 'A' as int) as char else c
  }

  function Upper(s: string): string {
    seq(|s|, k requires 0 <= k < |s| => UpperChar(s[k]))
  }

  function Clean(s: string): string {
    Upper(StripRight(StripLeft(s)))
  }

  predicate HasSeparator(s: string) {
    exists k :: 0 <= k < |s| && s[k] in SEPARATORS
  }

  /** The position of the last separator, if there is one. */
  function LastSeparator(s: string): (r: Option<nat>)
    ensures r == None <==> !HasSeparator(s)
    ensures r.Some? ==> r.value < |s| && s[r.value] in SEPARATORS && !HasSeparator(s[r.value + 1..])
  {
    if s == "" then None
    else if s[|s| - 1] in SEPARATORS then Some(|s| - 1)
    else
      var r := LastSeparator(s[..|s| - 1]);
      assert s == s[..|s| - 1] + [s[|s| - 1]];
      assert r.Some? ==> s[r.value + 1..] == s[..|s| - 1][r.value + 1..] + [s[|s| - 1]];
      assert HasSeparator(s) <==> HasSeparator(s[..|s| - 1]) by {
        if HasSeparator(s[..|s| - 1]) {
          var k :| 0 <= k < |s| - 1 && s[..|s| - 1][k] in SEPARATORS;
          assert s[k] in SEPARATORS;
        }
        if HasSeparator(s) {
          var k :| 0 <= k < |s| && s[k] in SEPARATORS;
          assert s[..|s| - 1][k] in SEPARATORS;
        }
      }
      r
  }

  /** reference_stem on cleaned text: the reference without its last component. */
  function StemOf(text: string, minLength: nat): Option<string> {
    var last := LastSeparator(text);
    if last == None || |text| - last.value - 1 > MAX_STEM_SUFFIX then None
    else if last.value >= minLength then Some(text[..last.value]) else None
  }

  lemma SeparatorAt(text: string, k: nat)
    requires k < |text| && text[k] in SEPARATORS
    ensures HasSeparator(text)
  {
  }

  lemma SeparatorAfter(text: string, a: nat, b: nat)
    requires a < b < |text| && text[b] in SEPARATORS
    ensures HasSeparator(text[a + 1..])
  {
    assert text[a + 1..][b - a - 1] in SEPARATORS;
  }

  /** The stem links exactly the references made of it, one separator and a short plain suffix. */
  lemma StemMeans(text: string, minLength: nat, stem: string)
    ensures StemOf(text, minLength) == Some(stem) <==>
            && |stem| >= minLength
            && |stem| < |text| && text[..|stem|] == stem && text[|stem|] in SEPARATORS
            && |text| - |stem| - 1 <= MAX_STEM_SUFFIX && !HasSeparator(text[|stem| + 1..])
  {
    hide HasSeparator, LastSeparator;
    var last := LastSeparator(text);
    if |stem| < |text| && text[|stem|] in SEPARATORS && !HasSeparator(text[|stem| + 1..]) {
      SeparatorAt(text, |stem|);
      if last.value < |stem| {
        SeparatorAfter(text, last.value, |stem|);
      }
      if last.value > |stem| {
        SeparatorAfter(text, |stem|, last.value);
      }
    }
  }

  /** _stem_keys: the whole reference and its stem. */
  function StemKeys(reference: string, minLength: nat): set<string> {
    var text := Clean(reference);
    (if |text| >= minLength then {text} else {})
    + (match StemOf(text, minLength) case Some(stem) => if stem == "" then {} else {stem} case None => {})
  }

  /** The text is reference[l..r] in upper case, and around it are only blanks. */
  ghost predicate CutAt(reference: string, l: nat, r: nat, text: string) {
    && l <= r <= |reference| && |text| == r - l
    && (forall k :: 0 <= k < l || r <= k < |reference| ==> IsSpace(reference[k]))
    && (l < r ==> !IsSpace(reference[l]) && !IsSpace(reference[r - 1]))
    && (forall k :: l <= k < r ==>
          var c := reference[k];
          if 'a' <= c <= 'z' then text[k - l] as int == c as int - 32 else text[k - l] == c)
  }

  lemma {:induction false} LeftStripped(s: string) returns (l: nat)
    ensures l <= |s| && StripLeft(s) == s[l..]
    ensures (forall k :: 0 <= k < l ==> IsSpace(s[k])) && (l < |s| ==> !IsSpace(s[l]))
  {
    if s != "" && IsSpace(s[0]) {
      var rest := LeftStripped(s[1..]);
      l := rest + 1;
      assert s[1..][rest..] == s[l..];
      assert forall k :: 1 <= k < l ==> s[k] == s[1..][k - 1];
    } else {
      l := 0;
    }
  }

  lemma {:induction false} RightStripped(s: string) returns (r: nat)
    ensures r <= |s| && StripRight(s) == s[..r]
    ensures (forall k :: r <= k < |s| ==> IsSpace(s[k])) && (r > 0 ==> !IsSpace(s[r - 1]))
  {
    if s != "" && IsSpace(s[|s| - 1]) {
      r := RightStripped(s[..|s| - 1]);
      assert s[..|s| - 1][..r] == s[..r];
    } else {
      r := |s|;
    }
  }

  /** Cleaning takes off the blanks around the text, no more, and puts it in upper case. */
  lemma CleanIsCut(reference: string) returns (l: nat, r: nat)
    ensures CutAt(reference, l, r, Clean(reference))
  {
    hide StripLeft, StripRight;
    l := LeftStripped(reference);
    var tail := reference[l..];
    var n := RightStripped(tail);
    r := l + n;
    assert tail[..n] == reference[l..r];
    assert forall k :: l <= k < |reference| ==> reference[k] == tail[k - l];
  }

  /** The key is the whole cleaned reference, or what precedes its last separator if no more than six characters
      follow; in either case it is long enough. */
  predicate StemKey(reference: string, minLength: nat, key: string) {
    var text, separators := Clean(reference), {'-', '_', '/', '.'};
    && |key| >= minLength
    && (|| key == text
        || (&& key != "" && |key| < |text| <= |key| + 7 && text[..|key|] == key && text[|key|] in separators
            && forall k :: |key| < k < |text| ==> text[k] !in separators))
  }

  lemma StemKeysMean(reference: string, minLength: nat, key: string)
    ensures key in StemKeys(reference, minLength) <==> StemKey(reference, minLength, key)
  {
    hide Clean, StemOf;
    var text := Clean(reference);
    StemMeans(text, minLength, key);
    if |key| < |text| {
      SeparatorsFrom(text, |key| + 1);
    }
  }

  lemma SeparatorsFrom(text: string, n: nat)
    requires n <= |text|
    ensures HasSeparator(text[n..]) <==> exists k :: n <= k < |text| && text[k] in SEPARATORS
  {
    var tail := text[n..];
    if k :| n <= k < |text| && text[k] in SEPARATORS {
      assert tail[k - n] in SEPARATORS;
    }
    if k :| 0 <= k < |tail| && tail[k] in SEPARATORS {
      assert text[n + k] in SEPARATORS;
    }
  }

  /** The parts of a split share a key with the single side that carries their stem whole. */
  lemma PartsShareTheStem(whole: string, part: string, suffix: string, separator: char, minLength: nat)
    requires 0 < minLength <= |Clean(whole)|
    requires Clean(part) == Clean(whole) + [separator] + suffix
    requires separator in SEPARATORS && !HasSeparator(suffix) && |suffix| <= MAX_STEM_SUFFIX
    ensures Clean(whole) in StemKeys(whole, minLength) * StemKeys(part, minLength)
  {
    var text := Clean(part);
    assert text[|Clean(whole)| + 1..] == suffix;
    StemMeans(text, minLength, Clean(whole));
  }

  /** The first n characters: the key of a counterparty name or a reference. */
  function Prefix(s: string, n: nat): string {
    if |s| <= n then s else s[..n]
  }
}
