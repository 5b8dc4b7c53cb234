/** The keyword scan of the diagnostics bundle (`rust/src/bundle.rs`). */
module KeywordScan {
  import opened Wrappers
  import opened Text

  predicate IsAsciiWhitespace(c: char) {
    c == ' ' || c == '\t' || c == '\n' || c == '\U{000C}' || c == '\r'
  }

  function ToLower(s: string): (r: string)
    ensures |r| == |s|
  {
    seq(|s|, i requires 0 <= i < |s| => if 'A' <= s[i] <= 'Z' then (s[i] as nat + 32) as char else s[i])
  }

  // ---------- payloads ----------

  predicate IsSeparator(c: char) {
    IsAsciiWhitespace(c) || c == ':' || c == '=' || c == '-' || c == '_'
  }

  function TrimSeparators(s: string): string {
    if s != "" && IsSeparator(s[0]) then TrimSeparators(s[1..]) else s
  }

  predicate IsFraming(c: char) {
    c == ',' || c == ';' || c == '.' || c == ')' || c == '('
  }

  function TrimFraming(s: string): string {
    if s != "" && IsFraming(s[0]) then TrimFraming(s[1..])
    else if s != "" && IsFraming(s[|s| - 1]) then TrimFraming(s[..|s| - 1])
    else s
  }

  function Kept(c: char): string {
    if IsAsciiWhitespace(c) then "" else [c]
  }

  function WithoutWhitespace(s: string): string {
    if s == "" then "" else Kept(s[0]) + WithoutWhitespace(s[1..])
  }

  predicate IsTokenChar(c: char) {
    IsAlphanumeric(c) || c == '+' || c == '/' || c == '=' || c == '_' || c == '-' || c == '.'
  }

  predicate LooksLikeSecretPayload(value: string) {
    var compact := WithoutWhitespace(TrimFraming(value));
    && |compact| >= 8
    && (forall i :: 0 <= i < |compact| ==> IsTokenChar(compact[i]))
    && ((exists i :: 0 <= i < |compact| && '0' <= compact[i] <= '9')
        || ((exists i :: 0 <= i < |compact| && 'A' <= compact[i] <= 'Z')
            && (exists i :: 0 <= i < |compact| && 'a' <= compact[i] <= 'z'))
        || |compact| >= 20)
  }

  // ---------- what the trimming leaves ----------

  /** Equal but for the case of ASCII letters. */
  ghost predicate SameButCase(a: string, b: string) {
    |a| == |b| && forall i :: 0 <= i < |a| ==>
      || a[i] == b[i]
      || ('A' <= a[i] <= 'Z' && b[i] as int == a[i] as int + 32)
      || ('A' <= b[i] <= 'Z' && a[i] as int == b[i] as int + 32)
  }

  /** Lowering forgets the case of letters and nothing else. */
  lemma LowerForgetsCase(a: string, b: string)
    ensures ToLower(a) == ToLower(b) <==> SameButCase(a, b)
    ensures forall i :: 0 <= i < |a| ==> !('A' <= ToLower(a)[i] <= 'Z')
  {
    if ToLower(a) == ToLower(b) {
      forall i | 0 <= i < |a|
        ensures a[i] == b[i] || ('A' <= a[i] <= 'Z' && b[i] as int == a[i] as int + 32)
             || ('A' <= b[i] <= 'Z' && a[i] as int == b[i] as int + 32)
      {
        assert ToLower(a)[i] == ToLower(b)[i];
      }
    }
  }

  /** The separators in front, all of them and nothing else, are gone. */
  lemma {:induction false} SeparatorsTrimmed(separators: string, tail: string)
    requires forall i :: 0 <= i < |separators| ==> IsSeparator(separators[i])
    requires tail == "" || !IsSeparator(tail[0])
    ensures TrimSeparators(separators + tail) == tail
  {
    if separators == "" {
      assert separators + tail == tail;
    } else {
      SeparatorsTrimmed(separators[1..], tail);
      assert (separators + tail)[1..] == separators[1..] + tail;
    }
  }

  /** The same for framing on both sides. */
  lemma {:induction false} FramingTrimmed(front: string, core: string, back: string)
    requires forall i :: 0 <= i < |front| ==> IsFraming(front[i])
    requires forall i :: 0 <= i < |back| ==> IsFraming(back[i])
    requires core != "" && !IsFraming(core[0]) && !IsFraming(core[|core| - 1])
    ensures TrimFraming(front + core + back) == core
    decreases |front| + |back|
  {
    var all := front + core + back;
    if front != "" {
      FramingTrimmed(front[1..], core, back);
      assert all[1..] == front[1..] + core + back;
    } else if back != "" {
      FramingTrimmed(front, core, back[..|back| - 1]);
      assert all[0] == core[0] && all[|all| - 1] == back[|back| - 1];
      assert all[..|all| - 1] == front + core + back[..|back| - 1];
    } else {
      assert all == core;
    }
  }

  lemma Regroup(a: string, b: string, c: string)
    ensures a + (b + c) == a + b + c
  {
  }

  lemma {:induction false} CompactConcat(a: string, b: string)
    ensures WithoutWhitespace(a + b) == WithoutWhitespace(a) + WithoutWhitespace(b)
  {
    if a == "" {
      assert a + b == b;
    } else {
      CompactConcat(a[1..], b);
      assert (a + b)[0] == a[0] && (a + b)[1..] == a[1..] + b;
      Regroup(Kept(a[0]), WithoutWhitespace(a[1..]), WithoutWhitespace(b));
    }
  }

  /** The positions, in order, of all characters that are not white space. */
  ghost predicate TextPositions(s: string, at: seq<nat>) {
    && (forall i: nat :: i in at <==> i < |s| && !IsAsciiWhitespace(s[i]))
    && (forall j, k :: 0 <= j < k < |at| ==> at[j] < at[k])
  }

  /** What is left without white space is the other characters, each once and in order. */
  lemma {:induction false} CompactPositions(s: string) returns (at: seq<nat>)
    ensures TextPositions(s, at) && |at| == |WithoutWhitespace(s)|
    ensures forall k :: 0 <= k < |at| ==> at[k] < |s| && WithoutWhitespace(s)[k] == s[at[k]]
  {
    at := [];
    if s != "" {
      var init, last := s[..|s| - 1], s[|s| - 1];
      assert s == init + [last];
      CompactConcat(init, [last]);
      assert [last][1..] == "";
      var before := CompactPositions(init);
      at := before;
      if !IsAsciiWhitespace(last) {
        assert forall k :: 0 <= k < |before| ==> before[k] in before;
        at := before + [|init|];
      }
    }
  }

  /** Enough token characters of the right kind, white space aside. */
  ghost predicate TokenLike(core: string, count: nat) {
    && count >= 8
    && (forall i :: 0 <= i < |core| ==> IsAsciiWhitespace(core[i]) || IsTokenChar(core[i]))
    && ((exists i :: 0 <= i < |core| && '0' <= core[i] <= '9')
        || ((exists i :: 0 <= i < |core| && 'A' <= core[i] <= 'Z')
            && (exists i :: 0 <= i < |core| && 'a' <= core[i] <= 'z'))
        || count >= 20)
  }

  lemma SameCharacters(core: string, at: seq<nat>, compact: string)
    requires TextPositions(core, at) && |at| == |compact|
    requires forall k :: 0 <= k < |at| ==> at[k] < |core| && compact[k] == core[at[k]]
    ensures forall c: char :: c in compact <==> c in core && !IsAsciiWhitespace(c)
  {
    forall c: char | c in core && !IsAsciiWhitespace(c) ensures c in compact {
      var i: nat :| i < |core| && core[i] == c;
      assert i in at;
      var k: nat :| k < |at| && at[k] == i;
      assert compact[k] == c;
    }
    forall k | 0 <= k < |compact| ensures compact[k] in core && !IsAsciiWhitespace(compact[k]) {
      assert at[k] in at;
    }
  }

  /**
   * What looks like a secret, in the words around it: between framing, at least eight characters
   * besides white space, all of them token characters, with a digit, or letters of both cases,
   * or at least twenty in all.
   */
  lemma LooksLikeExactly(front: string, core: string, back: string) returns (at: seq<nat>)
    requires forall i :: 0 <= i < |front| ==> IsFraming(front[i])
    requires forall i :: 0 <= i < |back| ==> IsFraming(back[i])
    requires core != "" && !IsFraming(core[0]) && !IsFraming(core[|core| - 1])
    ensures TextPositions(core, at)
    ensures LooksLikeSecretPayload(front + core + back) <==> TokenLike(core, |at|)
  {
    FramingTrimmed(front, core, back);
    at := CompactPositions(core);
    SameCharacters(core, at, WithoutWhitespace(core));
    CompactIsTokenLike(core, WithoutWhitespace(core));
    LooksTokenLike(front + core + back, WithoutWhitespace(core));
  }

  lemma LooksTokenLike(value: string, compact: string)
    requires compact == WithoutWhitespace(TrimFraming(value))
    requires forall c: char :: c in compact ==> !IsAsciiWhitespace(c)
    ensures LooksLikeSecretPayload(value) <==> TokenLike(compact, |compact|)
  {
    assert forall i :: 0 <= i < |compact| ==> compact[i] in compact;
  }

  lemma CompactIsTokenLike(core: string, compact: string)
    requires forall c: char :: c in compact <==> c in core && !IsAsciiWhitespace(c)
    ensures TokenLike(compact, |compact|) <==> TokenLike(core, |compact|)
  {
    assert forall i :: 0 <= i < |core| && !IsAsciiWhitespace(core[i]) ==> core[i] in compact;
    assert forall i :: 0 <= i < |compact| ==> compact[i] in compact;
  }

  /** The scan looks at lowered text, where letters of both cases never meet. */
  lemma NoMixedCase(text: string)
    requires forall i :: 0 <= i < |text| ==> !('A' <= text[i] <= 'Z')
    ensures var compact := WithoutWhitespace(TrimFraming(text));
      LooksLikeSecretPayload(text) <==>
        && |compact| >= 8 && (forall i :: 0 <= i < |compact| ==> IsTokenChar(compact[i]))
        && ((exists i :: 0 <= i < |compact| && '0' <= compact[i] <= '9') || |compact| >= 20)
  {
    TrimmedIsPart(text);
    var at := CompactPositions(TrimFraming(text));
  }

  lemma {:induction false} TrimmedIsPart(s: string)
    ensures forall i :: 0 <= i < |TrimFraming(s)| ==> TrimFraming(s)[i] in s
  {
    if s != "" && IsFraming(s[0]) {
      TrimmedIsPart(s[1..]);
    } else if s != "" && IsFraming(s[|s| - 1]) {
      TrimmedIsPart(s[..|s| - 1]);
    }
  }

  // ---------- the scan ----------

  predicate Bounded(value: string, index: nat, length: nat)
    requires index + length <= |value|
  {
    && (index == 0 || !IsAlphanumeric(value[index - 1]))
    && (index + length == |value| || !IsAlphanumeric(value[index + length]))
  }

  predicate TailReveals(value: string, after: nat)
    requires after <= |value|
  {
    var tail := TrimSeparators(value[after..]);
    tail == "" || LooksLikeSecretPayload(tail)
  }

  /** An occurrence that stands alone and is followed by nothing, or by something like a secret. */
  predicate Reveals(value: string, keyword: string, index: nat) {
    OccursAt(value, index, keyword) && Bounded(value, index, |keyword|) && TailReveals(value, index + |keyword|)
  }

  /**
   * Taken apart: the keyword reveals where neither neighbour is alphanumeric and what follows
   * the separators is nothing, or looks like a secret.
   */
  lemma RevealsExactly(before: string, keyword: string, separators: string, tail: string)
    requires forall i :: 0 <= i < |separators| ==> IsSeparator(separators[i])
    requires tail == "" || !IsSeparator(tail[0])
    ensures Reveals(before + keyword + separators + tail, keyword, |before|) <==>
      && (before == "" || !IsAlphanumeric(before[|before| - 1]))
      && (tail == "" || ((separators != "" || !IsAlphanumeric(tail[0])) && LooksLikeSecretPayload(tail)))
  {
    var value := before + keyword + separators + tail;
    assert value[|before|..|before| + |keyword|] == keyword;
    assert value[|before| + |keyword|..] == separators + tail;
    SeparatorsTrimmed(separators, tail);
  }

  function Find(value: string, from: nat, keyword: string): (r: Option<nat>)
    ensures r.Some? ==> from <= r.value && OccursAt(value, r.value, keyword)
    ensures r.Some? ==> forall j :: from <= j < r.value ==> !OccursAt(value, j, keyword)
    ensures r.None? ==> forall j :: from <= j ==> !OccursAt(value, j, keyword)
    decreases |value| - from
  {
    if from + |keyword| > |value| then None
    else if OccursAt(value, from, keyword) then Some(from)
    else Find(value, from + 1, keyword)
  }

  ghost predicate SomewhereReveals(value: string, keyword: string) {
    exists i :: 0 <= i <= |value| && Reveals(value, keyword, i)
  }

  /** What the loop answers from a position on: it jumps past each occurrence it rejects. */
  ghost function Scan(value: string, from: nat, keyword: string): bool
    requires keyword != ""
    decreases |value| - from
  {
    var next := Find(value, from, keyword);
    next.Some? && (Reveals(value, keyword, next.value) || Scan(value, next.value + |keyword|, keyword))
  }

  method ContainsSecretKeyword(value: string, keyword: string) returns (found: bool)
    requires keyword != ""
    ensures found == Scan(value, 0, keyword)
  {
    var searchStart := 0;
    while true
      invariant searchStart <= |value|
      invariant Scan(value, 0, keyword) == Scan(value, searchStart, keyword)
      decreases |value| - searchStart
    {
      var next := Find(value, searchStart, keyword);
      if next.None? {
        return false;
      }
      var index := next.value;
      var afterIndex := index + |keyword|;
      if Bounded(value, index, |keyword|) {
        if TailReveals(value, afterIndex) {
          return true;
        }
      }
      searchStart := afterIndex;
    }
  }

  // ---------- what jumping can miss ----------

  /** Shifted by `d`, the keyword fits onto itself: two occurrences can lie `d` apart. */
  predicate FitsShifted(keyword: string, d: nat)
    requires d < |keyword|
  {
    keyword[d..] == keyword[..|keyword| - d]
  }

  /** Whatever can overlap an occurrence starts right after an alphanumeric, and so never counts. */
  ghost predicate SafeToJump(keyword: string) {
    forall d :: 0 < d < |keyword| && FitsShifted(keyword, d) ==> IsAlphanumeric(keyword[d - 1])
  }

  lemma OverlapIsUnbounded(value: string, keyword: string, i: nat, j: nat)
    requires SafeToJump(keyword) && i < j < i + |keyword|
    requires OccursAt(value, i, keyword) && OccursAt(value, j, keyword)
    ensures !Bounded(value, j, |keyword|)
  {
    assert keyword[j - i..] == value[i..i + |keyword|][j - i..] == value[j..i + |keyword|];
    assert keyword[..|keyword| - (j - i)] == value[j..j + |keyword|][..|keyword| - (j - i)] == value[j..i + |keyword|];
    assert FitsShifted(keyword, j - i) && keyword[j - i - 1] == value[j - 1];
  }

  lemma {:induction false} ScanIsSound(value: string, from: nat, keyword: string)
    requires keyword != "" && Scan(value, from, keyword)
    ensures SomewhereReveals(value, keyword)
    decreases |value| - from
  {
    var next := Find(value, from, keyword);
    if !Reveals(value, keyword, next.value) {
      ScanIsSound(value, next.value + |keyword|, keyword);
    }
  }

  lemma {:induction false} ScanIsComplete(value: string, from: nat, keyword: string, j: nat)
    requires keyword != "" && SafeToJump(keyword) && from <= j && Reveals(value, keyword, j)
    ensures Scan(value, from, keyword)
    decreases |value| - from
  {
    var i := Find(value, from, keyword).value;
    if !Reveals(value, keyword, i) {
      if j < i + |keyword| {
        OverlapIsUnbounded(value, keyword, i, j);
      }
      ScanIsComplete(value, i + |keyword|, keyword, j);
    }
  }

  /** An overlap the loop jumps over: a letter that spoils the first occurrence, then two overlapping ones. */
  lemma ScanMisses(keyword: string, d: nat) returns (value: string)
    requires 0 < d < |keyword| && FitsShifted(keyword, d) && !IsAlphanumeric(keyword[d - 1])
    ensures SomewhereReveals(value, keyword) && !Scan(value, 0, keyword)
  {
    var spoiler := if keyword[0] == 'x' then 'y' else 'x';
    value := [spoiler] + keyword[..d] + keyword;
    assert value[1 + d..1 + d + |keyword|] == keyword;
    assert value[1 + d..][|keyword|..] == "";
    assert Reveals(value, keyword, 1 + d);
    assert value[1..1 + |keyword|] == keyword by {
      forall k | 0 <= k < |keyword| ensures value[1 + k] == keyword[k] {
        if k >= d {
          assert keyword[d..][k - d] == keyword[..|keyword| - d][k - d];
        }
      }
    }
    assert OccursAt(value, 1, keyword);
    assert !OccursAt(value, 0, keyword) by {
      assert value[0..|keyword|][0] == spoiler;
    }
    assert Find(value, 0, keyword) == Some(1);
    assert Find(value, 1 + |keyword|, keyword) == None;
  }

  /**
   * The loop answers its declaration, an occurrence anywhere that stands alone and reveals,
   * on every text exactly when the keyword is safe to jump.
   */
  lemma ScanIsDeclaredExactly(keyword: string)
    requires keyword != ""
    ensures (forall value :: Scan(value, 0, keyword) <==> SomewhereReveals(value, keyword)) <==> SafeToJump(keyword)
  {
    if SafeToJump(keyword) {
      forall value ensures Scan(value, 0, keyword) <==> SomewhereReveals(value, keyword) {
        if Scan(value, 0, keyword) {
          ScanIsSound(value, 0, keyword);
        }
        if SomewhereReveals(value, keyword) {
          var j: nat :| j <= |value| && Reveals(value, keyword, j);
          ScanIsComplete(value, 0, keyword, j);
        }
      }
    } else {
      var d :| 0 < d < |keyword| && FitsShifted(keyword, d) && !IsAlphanumeric(keyword[d - 1]);
      var value := ScanMisses(keyword, d);
    }
  }

  // ---------- the listed keywords ----------

  const KEYWORDS: seq<string> :=
    ["password", "passphrase", "secret", "token", "bearer", "api key", "apikey", "passcode", "pin"]

  lemma ShiftsDiffer(keyword: string, d: nat)
    requires 0 < d < |keyword| && keyword[0] != keyword[d]
    ensures !FitsShifted(keyword, d)
  {
    assert keyword[d..][0] == keyword[d] && keyword[..|keyword| - d][0] == keyword[0];
  }

  lemma AlphanumericIsSafe(keyword: string)
    requires forall i :: 0 <= i < |keyword| ==> IsAlphanumeric(keyword[i])
    ensures SafeToJump(keyword)
  {
  }

  /** All are alphanumeric but "api key", which does not fit onto itself after its space. */
  lemma KeywordsAreSafe(n: nat)
    requires n < |KEYWORDS|
    ensures KEYWORDS[n] != "" && SafeToJump(KEYWORDS[n])
  {
    AlphanumericIsSafe("password");
    AlphanumericIsSafe("passphrase");
    AlphanumericIsSafe("secret");
    AlphanumericIsSafe("token");
    AlphanumericIsSafe("bearer");
    SpacedIsSafe();
    AlphanumericIsSafe("apikey");
    AlphanumericIsSafe("passcode");
    AlphanumericIsSafe("pin");
  }

  lemma SpacedIsSafe()
    ensures SafeToJump("api key")
  {
    ShiftsDiffer("api key", 4);
  }

  method MatchesSecretKeyword(value: string) returns (found: bool)
    ensures found <==>
      exists n, i :: 0 <= n < |KEYWORDS| && 0 <= i <= |value| && Reveals(ToLower(value), KEYWORDS[n], i)
  {
    var lower := ToLower(value);
    for n := 0 to |KEYWORDS|
      invariant forall k, i :: 0 <= k < n && 0 <= i <= |value| ==> !Reveals(lower, KEYWORDS[k], i)
    {
      KeywordsAreSafe(n);
      ScanIsDeclaredExactly(KEYWORDS[n]);
      var hit := ContainsSecretKeyword(lower, KEYWORDS[n]);
      if hit {
        return true;
      }
    }
    found := false;
  }
}
