/** Redaction of one text by a validated list of patterns, and the validation of that list. */
module Redaction {
  import opened Common
  import opened Ordering

  const MAX_PATTERNS := 32
  const MAX_PATTERN_BYTES := 256
  const MAX_PATTERN_BYTES_TOTAL := 4096
  const MAX_INDEXED_KEYS := 32
  const MAX_KEY_BYTES := 128
  const REDACTED := "[REDACTED]"

  // ---------- substrings ----------

  predicate OccursAt(pattern: string, text: string, i: int) {
    0 <= i <= i + |pattern| <= |text| && text[i..i + |pattern|] == pattern
  }

  ghost predicate Contains(text: string, pattern: string) {
    exists i :: OccursAt(pattern, text, i)
  }

  /** The first occurrence at or after `from`. */
  function FindFrom(text: string, pattern: string, from: nat): (found: Option<nat>)
    requires from <= |text|
    ensures found.Some? ==> from <= found.value && OccursAt(pattern, text, found.value)
                            && forall j :: from <= j < found.value ==> !OccursAt(pattern, text, j)
    ensures found.None? ==> forall j :: from <= j ==> !OccursAt(pattern, text, j)
    decreases |text| - from
  {
    if OccursAt(pattern, text, from) then Some(from)
    else if from == |text| then None
    else FindFrom(text, pattern, from + 1)
  }

  function Find(text: string, pattern: string): Option<nat> {
    FindFrom(text, pattern, 0)
  }

  /** `str::replace`: every non-overlapping occurrence, left to right. */
  function Replace(text: string, pattern: string): string
    requires pattern != []
    decreases |text|
  {
    match Find(text, pattern)
    case None => text
    case Some(i) => text[..i] + REDACTED + Replace(text[i + |pattern|..], pattern)
  }

  // ---------- what a replacement is ----------

  function Join(gaps: seq<string>, between: string): string {
    if gaps == [] then "" else if |gaps| == 1 then gaps[0] else gaps[0] + between + Join(gaps[1..], between)
  }

  /** The pattern comes first at the end of the gap. */
  ghost predicate EndsAtFirst(gap: string, pattern: string) {
    forall i :: OccursAt(pattern, gap + pattern, i) ==> i >= |gap|
  }

  /** The text cut at the occurrences of the pattern, each taken as early as possible, and nothing left in the end. */
  ghost predicate CutAt(text: string, pattern: string, gaps: seq<string>) {
    && gaps != [] && Join(gaps, pattern) == text && !Contains(gaps[|gaps| - 1], pattern)
    && forall i :: 0 <= i < |gaps| - 1 ==> EndsAtFirst(gaps[i], pattern)
  }

  lemma FirstEndsTheGap(text: string, pattern: string, i: nat)
    requires pattern != [] && Find(text, pattern) == Some(i)
    ensures EndsAtFirst(text[..i], pattern)
  {
    forall j | OccursAt(pattern, text[..i] + pattern, j) ensures j >= i {
      assert text[..i] + pattern == text[..i + |pattern|];
      assert text[..i + |pattern|][j..j + |pattern|] == text[j..j + |pattern|];
      assert OccursAt(pattern, text, j);
    }
  }

  /** Replacing puts the placeholder where the text is cut, and keeps everything else as it is. */
  lemma {:induction false} ReplaceKeepsTheGaps(text: string, pattern: string) returns (gaps: seq<string>)
    requires pattern != []
    ensures CutAt(text, pattern, gaps) && Replace(text, pattern) == Join(gaps, "[REDACTED]")
    decreases |text|
  {
    match Find(text, pattern)
    case None =>
      gaps := [text];
    case Some(i) =>
      var rest := ReplaceKeepsTheGaps(text[i + |pattern|..], pattern);
      gaps := [text[..i]] + rest;
      FirstEndsTheGap(text, pattern, i);
      assert gaps[1..] == rest;
      assert text == text[..i] + pattern + text[i + |pattern|..];
      forall k | 0 <= k < |gaps| - 1 ensures EndsAtFirst(gaps[k], pattern) {
        assert k > 0 ==> gaps[k] == rest[k - 1];
      }
  }

  lemma OccursAfterGap(gap: string, pattern: string, rest: string)
    ensures OccursAt(pattern, gap + pattern + rest, |gap|)
  {
    assert (gap + pattern + rest)[|gap|..|gap| + |pattern|] == pattern;
  }

  lemma EarlierOccurs(a: string, b: string, pattern: string, s: string, t: string)
    requires a + pattern + s == b + pattern + t && |a| <= |b|
    ensures OccursAt(pattern, b + pattern, |a|)
  {
    OccursAfterGap(a, pattern, s);
    var text := b + pattern + t;
    assert text[..|b| + |pattern|] == b + pattern;
    assert (b + pattern)[|a|..|a| + |pattern|] == text[|a|..|a| + |pattern|];
  }

  lemma GapsBeginAlike(a: string, b: string, pattern: string, s: string, t: string)
    requires pattern != [] && a + pattern + s == b + pattern + t
    requires EndsAtFirst(a, pattern) && EndsAtFirst(b, pattern)
    ensures a == b && s == t
  {
    if |a| <= |b| {
      EarlierOccurs(a, b, pattern, s, t);
    } else {
      EarlierOccurs(b, a, pattern, t, s);
    }
    var text := a + pattern + s;
    assert text[..|a|] == a && text[..|b|] == b;
    assert text[|a| + |pattern|..] == s && text[|b| + |pattern|..] == t;
  }

  lemma CutsHoldThePattern(text: string, pattern: string, gaps: seq<string>)
    requires CutAt(text, pattern, gaps) && |gaps| > 1
    ensures Contains(text, pattern)
  {
    OccursAfterGap(gaps[0], pattern, Join(gaps[1..], pattern));
  }

  lemma RestIsCut(text: string, pattern: string, gaps: seq<string>)
    requires CutAt(text, pattern, gaps) && |gaps| > 1
    ensures CutAt(Join(gaps[1..], pattern), pattern, gaps[1..])
  {
    forall k | 0 <= k < |gaps| - 2 ensures EndsAtFirst(gaps[1..][k], pattern) {
      var next := k + 1;
      assert gaps[1..][k] == gaps[next] && EndsAtFirst(gaps[next], pattern);
    }
  }

  /** There is one way to cut a text, so the replacement is determined by it. */
  lemma {:induction false} CutIsUnique(text: string, pattern: string, a: seq<string>, b: seq<string>)
    requires pattern != [] && CutAt(text, pattern, a) && CutAt(text, pattern, b)
    ensures a == b
    decreases |a|
  {
    if |a| > 1 {
      CutsHoldThePattern(text, pattern, a);
    }
    if |b| > 1 {
      CutsHoldThePattern(text, pattern, b);
    }
    if |a| > 1 {
      GapsBeginAlike(a[0], b[0], pattern, Join(a[1..], pattern), Join(b[1..], pattern));
      RestIsCut(text, pattern, a);
      RestIsCut(text, pattern, b);
      CutIsUnique(Join(a[1..], pattern), pattern, a[1..], b[1..]);
      assert a == [a[0]] + a[1..] && b == [b[0]] + b[1..];
    }
  }

  predicate NoneEmpty(patterns: seq<string>) {
    forall i :: 0 <= i < |patterns| ==> patterns[i] != []
  }

  function RedactText(text: string, patterns: seq<string>): string
    requires NoneEmpty(patterns)
  {
    if patterns == [] then text
    else
      var last := |patterns| - 1;
      Replace(RedactText(text, patterns[..last]), patterns[last])
  }

  lemma AbsentFromSlices(whole: string, from: int, to: int, pattern: string)
    requires 0 <= from <= to <= |whole| && !Contains(whole, pattern)
    ensures !Contains(whole[from..to], pattern)
  {
    forall i ensures !OccursAt(pattern, whole[from..to], i) {
      if 0 <= i <= i + |pattern| <= to - from {
        SliceOfSlice(whole, from, to, i, i + |pattern|);
        assert !OccursAt(pattern, whole, from + i);
      }
    }
  }

  lemma AbsentBeforeFirst(text: string, pattern: string, first: nat)
    requires pattern != [] && Find(text, pattern) == Some(first)
    ensures !Contains(text[..first], pattern)
  {
    forall i ensures !OccursAt(pattern, text[..first], i) {
      if 0 <= i <= i + |pattern| <= first {
        assert text[..first][i..i + |pattern|] == text[i..i + |pattern|];
        assert !OccursAt(pattern, text, i);
      }
    }
  }

  // ---------- overlap with the placeholder ----------

  /** Lay the placeholder over the pattern, starting `shift` characters in: do they agree wherever both
      have a character? */
  predicate Agrees(pattern: string, shift: int) {
    forall k :: 0 <= k < |pattern| && 0 <= k - shift < |REDACTED| ==> pattern[k] == REDACTED[k - shift]
  }

  /** Some occurrence of the pattern could share a character with an inserted placeholder. */
  predicate Overlaps(pattern: string) {
    exists shift | -|REDACTED| < shift < |pattern| :: Agrees(pattern, shift)
  }

  /** Inserting the placeholder between two texts without the pattern creates no occurrence of it. */
  lemma AbsentAroundPlaceholder(before: string, after: string, pattern: string)
    requires !Overlaps(pattern) && !Contains(before, pattern) && !Contains(after, pattern)
    ensures !Contains(before + REDACTED + after, pattern)
  {
    var whole := before + REDACTED + after;
    forall i ensures !OccursAt(pattern, whole, i) {
      if 0 <= i <= i + |pattern| <= |whole| {
        var found := whole[i..i + |pattern|];
        if i + |pattern| <= |before| {
          assert found == before[i..i + |pattern|];
          assert !OccursAt(pattern, before, i);
        } else if i >= |before| + |REDACTED| {
          var j := i - |before| - |REDACTED|;
          assert found == after[j..j + |pattern|];
          assert !OccursAt(pattern, after, j);
        } else {
          var shift := |before| - i;
          assert !Agrees(pattern, shift);
          var k :| 0 <= k < |pattern| && 0 <= k - shift < |REDACTED| && pattern[k] != REDACTED[k - shift];
          assert found[k] == whole[i + k] == REDACTED[k - shift];
        }
      }
    }
  }

  /** Replacing any pattern keeps a non-overlapping pattern out of the text. */
  lemma {:induction false} ReplaceKeepsAbsent(text: string, replaced: string, pattern: string)
    requires replaced != [] && !Overlaps(pattern)
    requires pattern == replaced || !Contains(text, pattern)
    ensures !Contains(Replace(text, replaced), pattern)
    decreases |text|
  {
    match Find(text, replaced)
    case None =>
    case Some(i) =>
      var rest := text[i + |replaced|..];
      if pattern == replaced {
        AbsentBeforeFirst(text, pattern, i);
      } else {
        AbsentFromSlices(text, 0, i, pattern);
        AbsentFromSlices(text, i + |replaced|, |text|, pattern);
        assert text[..i] == text[0..i] && rest == text[i + |replaced|..|text|];
      }
      ReplaceKeepsAbsent(rest, replaced, pattern);
      AbsentAroundPlaceholder(text[..i], Replace(rest, replaced), pattern);
  }

  /** A pattern that does not overlap the placeholder is gone after redaction, whatever the other patterns are. */
  lemma {:induction false} PatternIsRemoved(text: string, patterns: seq<string>, pattern: string)
    requires NoneEmpty(patterns) && pattern in patterns && !Overlaps(pattern)
    ensures !Contains(RedactText(text, patterns), pattern)
    decreases |patterns|
  {
    var last := |patterns| - 1;
    if pattern in patterns[..last] {
      PatternIsRemoved(text, patterns[..last], pattern);
    } else {
      assert pattern == patterns[last];
    }
    ReplaceKeepsAbsent(RedactText(text, patterns[..last]), patterns[last], pattern);
  }

  lemma {:induction false} NothingToRedact(text: string, patterns: seq<string>)
    requires NoneEmpty(patterns) && forall i :: 0 <= i < |patterns| ==> !Contains(text, patterns[i])
    ensures RedactText(text, patterns) == text
    decreases |patterns|
  {
    if patterns != [] {
      NothingToRedact(text, patterns[..|patterns| - 1]);
    }
  }

  /** Redaction is complete and idempotent for every list of patterns that do not overlap the placeholder. */
  lemma RedactionIsCompleteAndIdempotent(text: string, patterns: seq<string>)
    requires NoneEmpty(patterns) && forall p :: p in patterns ==> !Overlaps(p)
    ensures forall p :: p in patterns ==> !Contains(RedactText(text, patterns), p)
    ensures RedactText(RedactText(text, patterns), patterns) == RedactText(text, patterns)
  {
    forall p | p in patterns ensures !Contains(RedactText(text, patterns), p) {
      PatternIsRemoved(text, patterns, p);
    }
    assert forall i :: 0 <= i < |patterns| ==> patterns[i] in patterns;
    NothingToRedact(RedactText(text, patterns), patterns);
  }

  // ---------- validated rules ----------

  predicate IsControl(c: char) {
    c < 0x20 as char || (0x7F as char <= c <= 0x9F as char)
  }

  predicate IsWhitespace(c: char) {
    var code := c as int;
    9 <= code <= 13 || code in {0x20, 0x85, 0xA0, 0x1680, 0x2028, 0x2029, 0x202F, 0x205F, 0x3000}
        || 0x2000 <= code <= 0x200A
  }

  predicate ValidPattern(pattern: string) {
    && (exists i :: 0 <= i < |pattern| && !IsWhitespace(pattern[i]))
    && Find(REDACTED, pattern).None?
    && Utf8Length(pattern) <= MAX_PATTERN_BYTES
    && (forall i :: 0 <= i < |pattern| ==> !IsControl(pattern[i]))
  }

  predicate ValidKey(key: string) {
    && 0 < |key| && Utf8Length(key) <= MAX_KEY_BYTES
    && forall i :: 0 <= i < |key| ==>
        'a' <= key[i] <= 'z' || 'A' <= key[i] <= 'Z' || '0' <= key[i] <= '9' || key[i] in "_-."
  }

  function TotalBytes(patterns: seq<string>): nat {
    if patterns == [] then 0 else Utf8Length(patterns[0]) + TotalBytes(patterns[1..])
  }

  predicate Acceptable(patterns: seq<string>, keys: seq<string>) {
    && |patterns| <= MAX_PATTERNS && |keys| <= MAX_INDEXED_KEYS
    && (forall p :: p in patterns ==> ValidPattern(p))
    && TotalBytes(patterns) <= MAX_PATTERN_BYTES_TOTAL
    && (forall k :: k in keys ==> ValidKey(k))
  }

  /** Longest first, then in text order. */
  predicate PatternBefore(a: string, b: string) {
    Utf8Length(a) > Utf8Length(b) || (Utf8Length(a) == Utf8Length(b) && TextBefore(a, b))
  }

  /** What a stored rule list looks like: accepted, sorted, without duplicates. */
  ghost predicate ValidList(patterns: seq<string>) {
    && |patterns| <= MAX_PATTERNS && TotalBytes(patterns) <= MAX_PATTERN_BYTES_TOTAL && NoneEmpty(patterns)
    && (forall p :: p in patterns ==> ValidPattern(p))
    && Canonical(PatternBefore, patterns)
  }

  datatype Rules = Rules(patterns: seq<string>, keys: seq<string>)

  lemma OrdersAreStrict()
    ensures StrictTotal(PatternBefore) && StrictTotal(TextBefore)
  {
    forall a: string, b: string
      ensures a == b || TextBefore(a, b) || TextBefore(b, a)
      ensures !(TextBefore(a, b) && TextBefore(b, a))
    {
      TextBeforeIsTotal(a, b);
    }
    forall a: string, b: string, c: string | TextBefore(a, b) && TextBefore(b, c) ensures TextBefore(a, c) {
      TextBeforeIsTransitive(a, b, c);
    }
  }

  lemma {:induction false} TotalBytesAt(items: seq<string>, i: nat)
    requires i < |items|
    ensures TotalBytes(items) == Utf8Length(items[i]) + TotalBytes(items[..i] + items[i + 1..])
  {
    if i == 0 {
      assert items[..0] + items[1..] == items[1..];
    } else {
      TotalBytesAt(items[1..], i - 1);
      var fewer := items[..i] + items[i + 1..];
      assert fewer[1..] == items[1..][..i - 1] + items[1..][i..];
    }
  }

  /** Dropping duplicates raises neither the number of entries nor their total size. */
  lemma {:induction false} DistinctIsNoLarger(list: seq<string>, items: seq<string>)
    requires Distinct(list) && Elements(list) <= Elements(items)
    ensures |list| <= |items| && TotalBytes(list) <= TotalBytes(items)
    decreases |list|
  {
    if list != [] {
      assert list[0] in Elements(list);
      var i :| 0 <= i < |items| && items[i] == list[0];
      var fewer := items[..i] + items[i + 1..];
      TotalBytesAt(items, i);
      forall p | p in Elements(list[1..]) ensures p in Elements(fewer) {
        assert p in Elements(list) && p != list[0];
        var j :| 0 <= j < |items| && items[j] == p;
        assert p == fewer[if j < i then j else j - 1];
      }
      DistinctIsNoLarger(list[1..], fewer);
    }
  }

  /** The bounds of the lists, as numbers of entries, characters and bytes. */
  predicate WithinBounds(patterns: seq<string>, keys: seq<string>) {
    && |patterns| <= 32 && |keys| <= 32 && TotalBytes(patterns) <= 4_096
    && (forall p :: p in patterns ==> Utf8Length(p) <= 256)
    && (forall k :: k in keys ==> 1 <= |k| && Utf8Length(k) <= 128)
  }

  /** Some character is visible, none is a control character, and the placeholder does not contain the pattern. */
  ghost predicate MayRedact(pattern: string) {
    && !(forall c :: c in pattern ==> IsWhitespace(c))
    && (forall c :: c in pattern ==> ' ' <= c <= '~' || c as int >= 0xA0)
    && !Contains("[REDACTED]", pattern)
  }

  ghost predicate AllMayRedact(patterns: seq<string>) {
    forall p :: p in patterns ==> MayRedact(p)
  }

  predicate IsKeyChar(c: char) {
    'a' <= c <= 'z' || 'A' <= c <= 'Z' || '0' <= c <= '9' || c == '_' || c == '-' || c == '.'
  }

  ghost predicate AllAreKeys(keys: seq<string>) {
    forall k :: k in keys ==> forall c :: c in k ==> IsKeyChar(c)
  }

  ghost predicate LongestFirst(patterns: seq<string>) {
    forall i, j :: 0 <= i < j < |patterns| ==>
      Utf8Length(patterns[j]) < Utf8Length(patterns[i])
      || (Utf8Length(patterns[j]) == Utf8Length(patterns[i]) && TextBefore(patterns[i], patterns[j]))
  }

  lemma ValidPatternExactly(pattern: string)
    ensures ValidPattern(pattern) <==> Utf8Length(pattern) <= 256 && MayRedact(pattern)
  {
    if forall i :: 0 <= i < |pattern| ==> IsWhitespace(pattern[i]) {
      assert forall c :: c in pattern ==> IsWhitespace(c);
    }
    if i :| 0 <= i < |pattern| && !IsWhitespace(pattern[i]) {
      assert pattern[i] in pattern;
    }
    if i :| 0 <= i < |pattern| && IsControl(pattern[i]) {
      assert pattern[i] in pattern;
    }
  }

  lemma ValidKeyExactly(key: string)
    ensures ValidKey(key) <==> 1 <= |key| && Utf8Length(key) <= 128 && forall c :: c in key ==> IsKeyChar(c)
  {
    forall i | 0 <= i < |key|
      ensures IsKeyChar(key[i]) <==>
                'a' <= key[i] <= 'z' || 'A' <= key[i] <= 'Z' || '0' <= key[i] <= '9' || key[i] in "_-."
    {
    }
    if forall c :: c in key ==> IsKeyChar(c) {
      assert forall i :: 0 <= i < |key| ==> key[i] in key;
    }
  }

  lemma AcceptableExactly(patterns: seq<string>, keys: seq<string>)
    ensures Acceptable(patterns, keys) <==>
              WithinBounds(patterns, keys) && AllMayRedact(patterns) && AllAreKeys(keys)
  {
    forall p | p in patterns ensures ValidPattern(p) <==> Utf8Length(p) <= 256 && MayRedact(p) {
      ValidPatternExactly(p);
    }
    forall k | k in keys
      ensures ValidKey(k) <==> 1 <= |k| && Utf8Length(k) <= 128 && forall c :: c in k ==> IsKeyChar(c)
    {
      ValidKeyExactly(k);
    }
  }

  /** Bounds first, then the canonical order. */
  method ValidateRules(patterns: seq<string>, keys: seq<string>) returns (rules: Result<Rules, ()>)
    ensures rules.Ok? <==> Acceptable(patterns, keys)
    ensures rules.Ok? <==> WithinBounds(patterns, keys) && AllMayRedact(patterns) && AllAreKeys(keys)
    ensures rules.Ok? ==> LongestFirst(rules.value.patterns)
    ensures rules.Ok? ==>
      ValidList(rules.value.patterns) && Elements(rules.value.patterns) == Elements(patterns)
      && Canonical(TextBefore, rules.value.keys) && Elements(rules.value.keys) == Elements(keys)
      && Acceptable(rules.value.patterns, rules.value.keys)
  {
    AcceptableExactly(patterns, keys);
    if !Acceptable(patterns, keys) {
      return Err(());
    }
    OrdersAreStrict();
    var sorted := SortDistinct(patterns, PatternBefore);
    var sortedKeys := SortDistinct(keys, TextBefore);
    CanonicalIsDistinct(PatternBefore, sorted);
    CanonicalIsDistinct(TextBefore, sortedKeys);
    DistinctIsNoLarger(sorted, patterns);
    DistinctIsNoLarger(sortedKeys, keys);
    forall p | p in sorted ensures ValidPattern(p) && p != [] {
      assert p in Elements(patterns);
    }
    assert forall i :: 0 <= i < |sorted| ==> sorted[i] in sorted;
    assert forall k :: k in sortedKeys ==> k in Elements(keys);
    return Ok(Rules(sorted, sortedKeys));
  }

  /** Validating a stored list again changes nothing: canonical lists are fixed by their elements. */
  lemma StoredRulesAreStable(stored: Rules, again: Rules)
    requires Canonical(PatternBefore, stored.patterns) && Canonical(PatternBefore, again.patterns)
    requires Canonical(TextBefore, stored.keys) && Canonical(TextBefore, again.keys)
    requires Elements(stored.patterns) == Elements(again.patterns) && Elements(stored.keys) == Elements(again.keys)
    ensures stored == again
  {
    OrdersAreStrict();
    CanonicalIsUnique(PatternBefore, stored.patterns, again.patterns);
    CanonicalIsUnique(TextBefore, stored.keys, again.keys);
  }

  /** Rules read back from their row are validated again; what validation once returned comes back unchanged. */
  method RulesFromRow(stored: Rules) returns (rules: Result<Rules, ()>)
    ensures rules.Ok? <==> Acceptable(stored.patterns, stored.keys)
    ensures rules.Ok? && Canonical(PatternBefore, stored.patterns) && Canonical(TextBefore, stored.keys) ==>
              rules == Ok(stored)
  {
    rules := ValidateRules(stored.patterns, stored.keys);
    ghost var canonical := Canonical(PatternBefore, stored.patterns) && Canonical(TextBefore, stored.keys);
    if rules.Ok? && canonical {
      StoredRulesAreStable(stored, rules.value);
    }
  }

  /** Redacts one text in place, pattern by pattern. */
  method RedactTextInOrder(original: string, patterns: seq<string>) returns (text: string)
    requires NoneEmpty(patterns)
    ensures text == RedactText(original, patterns)
  {
    text := original;
    for i := 0 to |patterns|
      invariant text == RedactText(original, patterns[..i])
    {
      assert patterns[..i + 1][..i] == patterns[..i];
      if Find(text, patterns[i]).Some? {
        text := Replace(text, patterns[i]);
      }
    }
    assert patterns[..|patterns|] == patterns;
  }

  // ---------- the exact condition ----------

  lemma BracketFreePatternsDoNotOverlap(pattern: string)
    requires ValidPattern(pattern) && '[' !in pattern && ']' !in pattern
    ensures !Overlaps(pattern)
  {
    forall shift | -|REDACTED| < shift < |pattern| ensures !Agrees(pattern, shift) {
      if shift >= 0 {
        assert pattern[shift] != REDACTED[shift - shift];
      } else if |REDACTED| - 1 + shift < |pattern| {
        assert pattern[|REDACTED| - 1 + shift] != REDACTED[|REDACTED| - 1 + shift - shift];
      } else {
        assert REDACTED[-shift..-shift + |pattern|] != pattern by {
          assert !OccursAt(pattern, REDACTED, -shift);
        }
        var k :| 0 <= k < |pattern| && pattern[k] != REDACTED[-shift..-shift + |pattern|][k];
      }
    }
  }

  /** The pattern is gone from every text under every validated rule list that contains it. */
  ghost predicate AlwaysRemoved(pattern: string) {
    forall text, patterns ::
      ValidList(patterns) && pattern in patterns ==> !Contains(RedactText(text, patterns), pattern)
  }

  predicate HasLetter(pattern: string, k: nat)
    requires k <= 0x100
  {
    (0x100 + k) as char in pattern
  }

  lemma {:induction false} LettersPresent(pattern: string, n: nat)
    requires n <= 0x101 && forall k :: 0 <= k < n ==> HasLetter(pattern, k)
    ensures n <= |pattern|
    decreases n
  {
    if n > 0 {
      var c := (0x100 + n - 1) as char;
      assert HasLetter(pattern, n - 1);
      var i :| 0 <= i < |pattern| && pattern[i] == c;
      var rest := pattern[..i] + pattern[i + 1..];
      forall k | 0 <= k < n - 1 ensures HasLetter(rest, k) {
        assert HasLetter(pattern, k);
        var j :| 0 <= j < |pattern| && pattern[j] == (0x100 + k) as char;
        assert rest[if j < i then j else j - 1] == (0x100 + k) as char;
      }
      LettersPresent(rest, n - 1);
    }
  }

  lemma UnusedLetter(pattern: string) returns (c: char)
    requires |pattern| <= 256
    ensures 0x100 <= c as int <= 0x200 && c !in pattern
  {
    if forall k :: 0 <= k < 0x101 ==> HasLetter(pattern, k) {
      LettersPresent(pattern, 0x101);
    }
    var k :| 0 <= k < 0x101 && !HasLetter(pattern, k);
    c := (0x100 + k) as char;
  }

  function Head(pattern: string, shift: int): string
    requires shift < |pattern|
  {
    pattern[..if shift > 0 then shift else 0]
  }

  function Tail(pattern: string, shift: int): string
    requires -|REDACTED| < shift
  {
    if shift + |REDACTED| < |pattern| then pattern[shift + |REDACTED|..] else []
  }

  /** One character that overlaps the placeholder lies inside it, so validation rejects it. */
  lemma OverlappingPatternIsLong(pattern: string)
    requires ValidPattern(pattern) && Overlaps(pattern)
    ensures |pattern| >= 2
  {
    assert |pattern| > 0;
    if |pattern| == 1 {
      forall shift | -|REDACTED| < shift < |pattern| ensures !Agrees(pattern, shift) {
        assert !OccursAt(pattern, REDACTED, -shift);
        assert REDACTED[-shift..-shift + 1] == [REDACTED[-shift]];
        assert pattern == [pattern[0]];
        assert pattern[0] != REDACTED[0 - shift];
      }
    }
  }

  lemma LetterIsAValidPattern(pattern: string, c: char)
    requires ValidPattern(pattern) && 0x100 <= c as int <= 0x200 && Find(REDACTED, pattern).None?
    requires exists shift | -|REDACTED| < shift < |pattern| :: Agrees(pattern, shift)
    ensures ValidList([pattern, [c]])
  {
    assert Utf8Length([c]) == 2 by {
      assert [c][1..] == [];
    }
    assert !IsWhitespace([c][0]);
    forall i ensures !OccursAt([c], REDACTED, i) {
      if 0 <= i < |REDACTED| {
        assert REDACTED[i..i + 1][0] == REDACTED[i] != c;
      }
    }
    OverlappingPatternIsLong(pattern);
    Utf8LengthBounds(pattern);
    if Utf8Length(pattern) == 2 {
      assert Utf8Length(pattern) == Utf8Width(pattern[0]) + (Utf8Width(pattern[1]) + Utf8Length(pattern[1..][1..]));
      assert TextBefore(pattern, [c]);
    }
    assert [pattern, [c]][1..] == [[c]] && [[c]][1..] == [];
    assert TotalBytes([pattern, [c]]) == Utf8Length(pattern) + (Utf8Length([c]) + TotalBytes([]));
  }

  lemma TwoPatterns(text: string, first: string, second: string)
    requires first != [] && second != []
    ensures RedactText(text, [first, second]) == Replace(Replace(text, first), second)
    ensures RedactText(text, [first]) == Replace(text, first)
  {
    assert [first, second][..1] == [first] && [first][..0] == [];
    assert RedactText(text, []) == text;
  }

  lemma SplitTextLacksPattern(pattern: string, shift: int, c: char)
    requires pattern != [] && -|REDACTED| < shift < |pattern| && c !in pattern
    ensures !Contains(Head(pattern, shift) + [c] + Tail(pattern, shift), pattern)
  {
    var head, tail := Head(pattern, shift), Tail(pattern, shift);
    var text := head + [c] + tail;
    assert text[|head|] == c;
    forall i ensures !OccursAt(pattern, text, i) {
      if 0 <= i <= |head| < i + |pattern| <= |text| {
        assert text[i..i + |pattern|][|head| - i] == c != pattern[|head| - i];
      }
    }
  }

  lemma LetterIsReplaced(head: string, c: char, tail: string)
    requires c !in head && c !in tail
    ensures Replace(head + [c] + tail, [c]) == head + REDACTED + tail
  {
    var text := head + [c] + tail;
    assert OccursAt([c], text, |head|);
    forall i ensures OccursAt([c], text, i) ==> i == |head| {
      if 0 <= i < |text| {
        assert text[i..i + 1][0] == text[i];
        if i < |head| {
          assert text[i] == head[i];
        } else if i > |head| {
          assert text[i] == tail[i - |head| - 1];
        }
      }
    }
    forall i ensures !OccursAt([c], tail, i) {
      if 0 <= i < |tail| {
        assert tail[i..i + 1][0] == tail[i];
      }
    }
    assert text[|head| + 1..] == tail && text[..|head|] == head;
  }

  /** With a letter that the pattern lacks as second pattern: the letter is replaced, the pattern was not. */
  lemma LetterTurnsIntoPlaceholder(pattern: string, shift: int, c: char)
    requires pattern != [] && -|REDACTED| < shift < |pattern| && c !in pattern
    ensures RedactText(Head(pattern, shift) + [c] + Tail(pattern, shift), [pattern, [c]])
         == Head(pattern, shift) + REDACTED + Tail(pattern, shift)
  {
    var head, tail := Head(pattern, shift), Tail(pattern, shift);
    var text := head + [c] + tail;
    TwoPatterns(text, pattern, [c]);
    SplitTextLacksPattern(pattern, shift, c);
    NothingToRedact(text, [pattern]);
    LetterIsReplaced(head, c, tail);
  }

  lemma PlaceholderCompletesPattern(pattern: string, shift: int)
    requires -|REDACTED| < shift < |pattern| && Agrees(pattern, shift)
    ensures Contains(Head(pattern, shift) + REDACTED + Tail(pattern, shift), pattern)
  {
    var whole := Head(pattern, shift) + REDACTED + Tail(pattern, shift);
    var at := if shift > 0 then 0 else -shift;
    forall k | 0 <= k < |pattern| ensures at + k < |whole| && whole[at + k] == pattern[k] {
      if 0 <= k - shift < |REDACTED| {
        assert pattern[k] == REDACTED[k - shift];
      }
    }
    assert at + |pattern| <= |whole|;
    assert whole[at..at + |pattern|] == pattern;
    assert OccursAt(pattern, whole, at);
  }

  /** For an overlapping pattern: a one-letter second pattern and a text that only the second one
      matches, whose placeholder completes the first. */
  lemma LeakingText(pattern: string, shift: int) returns (text: string, c: char)
    requires ValidPattern(pattern) && -|REDACTED| < shift < |pattern| && Agrees(pattern, shift)
    ensures ValidList([pattern, [c]]) && Contains(RedactText(text, [pattern, [c]]), pattern)
    ensures c !in REDACTED && c !in RedactText(text, [pattern, [c]])
  {
    Utf8LengthBounds(pattern);
    c := UnusedLetter(pattern);
    text := Head(pattern, shift) + [c] + Tail(pattern, shift);
    LetterIsAValidPattern(pattern, c);
    LetterTurnsIntoPlaceholder(pattern, shift, c);
    PlaceholderCompletesPattern(pattern, shift);
  }

  /** A validated pattern is always removed if and only if it does not overlap the placeholder. */
  lemma AlwaysRemovedExactlyWithoutOverlap(pattern: string)
    requires ValidPattern(pattern)
    ensures AlwaysRemoved(pattern) <==> !Overlaps(pattern)
  {
    if Overlaps(pattern) {
      var shift :| -|REDACTED| < shift < |pattern| && Agrees(pattern, shift);
      var text, c := LeakingText(pattern, shift);
      assert pattern in [pattern, [c]];
      assert Contains(RedactText(text, [pattern, [c]]), pattern);
    } else {
      forall text, patterns | ValidList(patterns) && pattern in patterns
        ensures !Contains(RedactText(text, patterns), pattern)
      {
        PatternIsRemoved(text, patterns, pattern);
      }
    }
  }

  // ---------- redacting twice ----------

  /** The other patterns of the list do not overlap the placeholder. */
  ghost predicate OthersDoNotOverlap(patterns: seq<string>, pattern: string) {
    forall other :: other in patterns && other != pattern ==> !Overlaps(other)
  }

  /** Redacting twice is redacting once, under every validated list whose other patterns do not overlap. */
  ghost predicate AlwaysIdempotent(pattern: string) {
    forall text, patterns ::
      ValidList(patterns) && pattern in patterns && OthersDoNotOverlap(patterns, pattern) ==>
        RedactText(RedactText(text, patterns), patterns) == RedactText(text, patterns)
  }

  lemma {:induction false} ReplacementChangesTheLength(text: string, pattern: string)
    requires pattern != []
    ensures |pattern| < |REDACTED| ==> |text| <= |Replace(text, pattern)|
    ensures |pattern| > |REDACTED| ==> |text| >= |Replace(text, pattern)|
    ensures Find(text, pattern).Some? && |pattern| != |REDACTED| ==> |Replace(text, pattern)| != |text|
    decreases |text|
  {
    var found := Find(text, pattern);
    if found.Some? {
      ReplacementChangesTheLength(text[found.value + |pattern|..], pattern);
    }
  }

  /** Replacing an occurring pattern changes the text, unless the pattern is the placeholder itself. */
  lemma ReplacementChangesTheText(text: string, pattern: string)
    requires pattern != [] && pattern != REDACTED && Contains(text, pattern)
    ensures Replace(text, pattern) != text
  {
    var i := Find(text, pattern).value;
    if |pattern| == |REDACTED| {
      assert Replace(text, pattern)[i..i + |pattern|] == REDACTED;
      assert text[i..i + |pattern|] == pattern;
    } else {
      ReplacementChangesTheLength(text, pattern);
    }
  }

  lemma {:induction false} ReplacementAddsNoLetter(text: string, pattern: string, c: char)
    requires pattern != [] && c !in text && c !in REDACTED
    ensures c !in Replace(text, pattern)
    decreases |text|
  {
    var found := Find(text, pattern);
    if found.Some? {
      ReplacementAddsNoLetter(text[found.value + |pattern|..], pattern, c);
    }
  }

  lemma AbsentLetterIsNotReplaced(text: string, c: char)
    requires c !in text
    ensures Replace(text, [c]) == text
  {
    forall i ensures !OccursAt([c], text, i) {
      if 0 <= i < |text| {
        assert text[i..i + 1][0] == text[i] != c;
      }
    }
  }

  lemma LetterDoesNotOverlap(c: char)
    requires c !in REDACTED
    ensures !Overlaps([c])
  {
    forall shift | -|REDACTED| < shift < |[c]| ensures !Agrees([c], shift) {
      assert [c][0] == c != REDACTED[-shift];
    }
  }

  lemma PlaceholderIsNotAPattern(pattern: string)
    requires ValidPattern(pattern)
    ensures pattern != REDACTED
  {
    assert OccursAt(REDACTED, REDACTED, 0);
  }

  lemma TwiceIsNotOnce(pattern: string, shift: int) returns (text: string, c: char)
    requires ValidPattern(pattern) && -|REDACTED| < shift < |pattern| && Agrees(pattern, shift)
    ensures ValidList([pattern, [c]]) && c !in REDACTED
    ensures RedactText(RedactText(text, [pattern, [c]]), [pattern, [c]]) != RedactText(text, [pattern, [c]])
  {
    text, c := LeakingText(pattern, shift);
    var once := RedactText(text, [pattern, [c]]);
    TwoPatterns(once, pattern, [c]);
    ReplacementAddsNoLetter(once, pattern, c);
    AbsentLetterIsNotReplaced(Replace(once, pattern), c);
    PlaceholderIsNotAPattern(pattern);
    ReplacementChangesTheText(once, pattern);
  }

  /** A validated pattern keeps redaction idempotent if and only if it does not overlap the placeholder. */
  lemma AlwaysIdempotentExactlyWithoutOverlap(pattern: string)
    requires ValidPattern(pattern)
    ensures AlwaysIdempotent(pattern) <==> !Overlaps(pattern)
  {
    if Overlaps(pattern) {
      var shift :| -|REDACTED| < shift < |pattern| && Agrees(pattern, shift);
      var text, c := TwiceIsNotOnce(pattern, shift);
      LetterDoesNotOverlap(c);
      assert OthersDoNotOverlap([pattern, [c]], pattern) && pattern in [pattern, [c]];
    } else {
      forall text, patterns | ValidList(patterns) && pattern in patterns && OthersDoNotOverlap(patterns, pattern)
        ensures RedactText(RedactText(text, patterns), patterns) == RedactText(text, patterns)
      {
        RedactionIsCompleteAndIdempotent(text, patterns);
      }
    }
  }

  lemma FirstRuleMisses()
    ensures RedactText("zzabc", ["]abc"]) == "zzabc"
  {
    forall i ensures !OccursAt("]abc", "zzabc", i) {
      if 0 <= i <= 1 {
        assert "zzabc"[i..i + 4][0] == 'z';
      }
    }
    assert ["]abc"][..0] == [];
  }

  lemma SecondRuleReplaces()
    ensures Replace("zzabc", "zz") == "[REDACTED]abc"
  {
    var text := "zzabc";
    assert OccursAt("zz", text, 0);
    assert text[2..] == "abc";
    forall i ensures !OccursAt("zz", "abc", i) {
      if 0 <= i <= 1 {
        assert "abc"[i..i + 2][0] != 'z';
      }
    }
    assert Replace(text, "zz") == text[..0] + REDACTED + "abc";
  }

  /** A concrete failure: with the rules `]abc` and `zz`, the text `zzabc` turns into one that contains `]abc`. */
  lemma BracketPatternLeaks()
    ensures RedactText("zzabc", ["]abc", "zz"]) == "[REDACTED]abc"
    ensures Contains("[REDACTED]abc", "]abc")
  {
    assert ["]abc", "zz"][..1] == ["]abc"];
    FirstRuleMisses();
    SecondRuleReplaces();
    assert "[REDACTED]abc"[9..13] == "]abc";
    assert OccursAt("]abc", "[REDACTED]abc", 9);
  }
}
