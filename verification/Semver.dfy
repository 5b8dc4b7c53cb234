/** The semantic-version recogniser of `rust/src/cli.rs` and the grammar it recognises. */
module Semver {
  import opened Wrappers
  import opened Text
  import opened Decimal

  const NUMBER_RANGE: nat := 0x1_0000_0000_0000_0000

  predicate IsIdentifierChar(c: char) {
    IsAlphanumeric(c) || c == '-'
  }

  predicate AllIdentifierChars(s: string) {
    forall i :: 0 <= i < |s| ==> IsIdentifierChar(s[i])
  }

  // ---------- the recogniser ----------

  function SplitOnce(s: string, c: char): Option<(string, string)> {
    var i := IndexOf(s, c);
    if i == |s| then None else Some((s[..i], s[i + 1..]))
  }

  function ParseNumber(part: Option<string>): Option<nat> {
    if part.None? then None
    else
      var p := part.value;
      if p == "" || !AllDigits(p) || (|p| > 1 && p[0] == '0') then None
      else if Value(p) < NUMBER_RANGE then Some(Value(p))
      else None
  }

  predicate AcceptsIdentifier(part: string, rejectNumericLeadingZero: bool) {
    && part != "" && AllIdentifierChars(part)
    && !(rejectNumericLeadingZero && |part| > 1 && AllDigits(part) && part[0] == '0')
  }

  /** The one loop: stop at the first part that is not an identifier. */
  method ValidateIdentifiers(value: string, rejectNumericLeadingZero: bool) returns (ok: bool)
    ensures ok <==> IdentifiersValid(value, rejectNumericLeadingZero)
  {
    var parts := Split(value, '.');
    for i := 0 to |parts|
      invariant forall k :: 0 <= k < i ==> AcceptsIdentifier(parts[k], rejectNumericLeadingZero)
    {
      var part := parts[i];
      if part == "" || !AllIdentifierChars(part) {
        assert part in parts;
        return false;
      }
      if rejectNumericLeadingZero && |part| > 1 && AllDigits(part) && part[0] == '0' {
        assert part in parts;
        return false;
      }
    }
    ok := true;
  }

  predicate IdentifiersValid(value: string, rejectNumericLeadingZero: bool) {
    forall p :: p in Split(value, '.') ==> AcceptsIdentifier(p, rejectNumericLeadingZero)
  }

  function At(parts: seq<string>, i: nat): Option<string> {
    if i < |parts| then Some(parts[i]) else None
  }

  function ParseCore(core: string): Option<(nat, nat, nat)> {
    var parts := Split(core, '.');
    var major, minor, patch := ParseNumber(At(parts, 0)), ParseNumber(At(parts, 1)), ParseNumber(At(parts, 2));
    if major.None? || minor.None? || patch.None? || |parts| > 3 then None
    else Some((major.value, minor.value, patch.value))
  }

  function ParseUnbuilt(coreAndPrerelease: string): Option<(nat, nat, nat)> {
    var cut := SplitOnce(coreAndPrerelease, '-');
    if cut.None? then ParseCore(coreAndPrerelease)
    else if cut.value.1 == "" then None
    else
      var numbers := ParseCore(cut.value.0);
      if numbers.None? || !IdentifiersValid(cut.value.1, true) then None else numbers
  }

  function ParseSemver(version: string): Option<(nat, nat, nat)> {
    var cut := SplitOnce(version, '+');
    if cut.None? then ParseUnbuilt(version)
    else if cut.value.1 == "" || '+' in cut.value.1 then None
    else
      var numbers := ParseUnbuilt(cut.value.0);
      if numbers.None? || !IdentifiersValid(cut.value.1, false) then None else numbers
  }

  // ---------- the grammar: Semantic Versioning 2.0.0, items 2, 9 and 10 ----------

  // The terminals of the grammar, by their ASCII codes.

  ghost predicate Digit(c: char) {
    48 <= c as nat <= 57
  }

  ghost predicate Letter(c: char) {
    65 <= c as nat <= 90 || 97 <= c as nat <= 122
  }

  ghost predicate Hyphen(c: char) {
    c as nat == 45
  }

  ghost predicate Digits(s: string) {
    s != "" && forall i :: 0 <= i < |s| ==> Digit(s[i])
  }

  ghost predicate NumericIdentifier(s: string) {
    s == "0" || (Digits(s) && s[0] as nat != 48)
  }

  ghost predicate AlphanumericIdentifier(s: string) {
    && (forall i :: 0 <= i < |s| ==> Digit(s[i]) || Letter(s[i]) || Hyphen(s[i]))
    && (exists i :: 0 <= i < |s| && !Digit(s[i]))
  }

  ghost predicate PrereleaseIdentifier(s: string) {
    AlphanumericIdentifier(s) || NumericIdentifier(s)
  }

  ghost predicate BuildIdentifier(s: string) {
    AlphanumericIdentifier(s) || Digits(s)
  }

  /** A version as the grammar derives it. */
  datatype Derivation = Derivation(
    major: string, minor: string, patch: string,
    prerelease: Option<seq<string>>, build: Option<seq<string>>)

  ghost predicate Grammatical(d: Derivation) {
    && NumericIdentifier(d.major) && NumericIdentifier(d.minor) && NumericIdentifier(d.patch)
    && (d.prerelease.Some? ==>
          d.prerelease.value != [] && forall p :: p in d.prerelease.value ==> PrereleaseIdentifier(p))
    && (d.build.Some? ==> d.build.value != [] && forall p :: p in d.build.value ==> BuildIdentifier(p))
  }

  function Unbuilt(d: Derivation): string {
    d.major + "." + d.minor + "." + d.patch + (if d.prerelease.Some? then "-" + Join(d.prerelease.value, '.') else "")
  }

  function Spelling(d: Derivation): string {
    Unbuilt(d) + (if d.build.Some? then "+" + Join(d.build.value, '.') else "")
  }

  ghost predicate InRange(d: Derivation)
    requires Grammatical(d)
  {
    Value(d.major) < NUMBER_RANGE && Value(d.minor) < NUMBER_RANGE && Value(d.patch) < NUMBER_RANGE
  }

  ghost function Numbers(d: Derivation): (nat, nat, nat)
    requires Grammatical(d)
  {
    (Value(d.major), Value(d.minor), Value(d.patch))
  }

  // ---------- identifiers ----------

  lemma IdentifierExactly(p: string)
    ensures AcceptsIdentifier(p, true) <==> PrereleaseIdentifier(p)
    ensures AcceptsIdentifier(p, false) <==> BuildIdentifier(p)
    ensures ParseNumber(Some(p)) == if NumericIdentifier(p) && Value(p) < NUMBER_RANGE then Some(Value(p)) else None
    ensures NumericIdentifier(p) <==> Canonical(p)
  {
    if |p| == 1 {
      assert p == [p[0]];
    }
  }

  lemma {:induction false} JoinAvoids(parts: seq<string>, c: char)
    requires forall p :: p in parts ==> AllIdentifierChars(p)
    requires c == '+'
    ensures c !in Join(parts, '.')
  {
    if parts != [] {
      assert parts[0] in parts;
      JoinAvoids(parts[1..], c);
    }
  }

  lemma IdentifiersHaveNoDots(parts: seq<string>)
    requires forall p :: p in parts ==> AllIdentifierChars(p)
    ensures forall p :: p in parts ==> '.' !in p
  {
  }

  lemma JoinedIdentifiersValid(parts: seq<string>, strict: bool)
    requires parts != [] && forall p :: p in parts ==> AcceptsIdentifier(p, strict)
    ensures IdentifiersValid(Join(parts, '.'), strict) && Join(parts, '.') != "" && '+' !in Join(parts, '.')
  {
    IdentifiersHaveNoDots(parts);
    SplitOfJoin(parts, '.');
    JoinAvoids(parts, '+');
    assert parts[0] in parts;
  }

  // ---------- from the grammar to the recogniser ----------

  lemma CoreParses(major: string, minor: string, patch: string)
    requires NumericIdentifier(major) && NumericIdentifier(minor) && NumericIdentifier(patch)
    ensures var core := major + "." + minor + "." + patch;
      && '-' !in core && '+' !in core
      && ParseCore(core) == if Value(major) < NUMBER_RANGE && Value(minor) < NUMBER_RANGE && Value(patch) < NUMBER_RANGE
                            then Some((Value(major), Value(minor), Value(patch))) else None
  {
    CoreSplits(major, minor, patch);
    ThreeParse(major + "." + minor + "." + patch, major, minor, patch);
    NumeralsAvoid(major, minor, patch);
  }

  lemma CoreSplits(major: string, minor: string, patch: string)
    requires AllDigits(major) && AllDigits(minor) && AllDigits(patch)
    ensures Split(major + "." + minor + "." + patch, '.') == [major, minor, patch]
  {
    JoinThree(major, minor, patch);
    SplitOfJoin([major, minor, patch], '.');
  }

  lemma ThreeParse(core: string, major: string, minor: string, patch: string)
    requires Split(core, '.') == [major, minor, patch]
    requires NumericIdentifier(major) && NumericIdentifier(minor) && NumericIdentifier(patch)
    ensures ParseCore(core) ==
      if Value(major) < NUMBER_RANGE && Value(minor) < NUMBER_RANGE && Value(patch) < NUMBER_RANGE
      then Some((Value(major), Value(minor), Value(patch))) else None
  {
    IdentifierExactly(major);
    IdentifierExactly(minor);
    IdentifierExactly(patch);
  }

  lemma JoinThree(a: string, b: string, c: string)
    ensures Join([a, b, c], '.') == a + "." + b + "." + c
  {
    assert [a, b, c][1..] == [b, c] && [b, c][1..] == [c];
    assert Join([b, c], '.') == b + "." + c;
  }

  lemma NumeralsAvoid(a: string, b: string, c: string)
    requires AllDigits(a) && AllDigits(b) && AllDigits(c)
    ensures '-' !in a + "." + b + "." + c && '+' !in a + "." + b + "." + c
  {
  }

  lemma UnbuiltParses(d: Derivation)
    requires Grammatical(d)
    ensures ParseUnbuilt(Unbuilt(d)) == (if InRange(d) then Some(Numbers(d)) else None) && '+' !in Unbuilt(d)
  {
    var core := d.major + "." + d.minor + "." + d.patch;
    CoreParses(d.major, d.minor, d.patch);
    if d.prerelease.Some? {
      var tail := Join(d.prerelease.value, '.');
      forall p | p in d.prerelease.value ensures AcceptsIdentifier(p, true) { IdentifierExactly(p); }
      JoinedIdentifiersValid(d.prerelease.value, true);
      IndexOfConcat(core, '-', tail);
      assert Unbuilt(d) == core + ['-'] + tail;
    } else {
      assert Unbuilt(d) == core;
      IndexOfConcat(core, '-', "");
    }
  }

  /** Every spelling the grammar derives is accepted exactly when its numbers fit 64 bits. */
  lemma SpellingParses(d: Derivation)
    requires Grammatical(d)
    ensures ParseSemver(Spelling(d)) == if InRange(d) then Some(Numbers(d)) else None
  {
    UnbuiltParses(d);
    if d.build.Some? {
      var tail := Join(d.build.value, '.');
      forall p | p in d.build.value ensures AcceptsIdentifier(p, false) { IdentifierExactly(p); }
      JoinedIdentifiersValid(d.build.value, false);
      IndexOfConcat(Unbuilt(d), '+', tail);
      assert Spelling(d) == Unbuilt(d) + ['+'] + tail;
    } else {
      PlainSpelling(d);
      IndexOfConcat(Unbuilt(d), '+', "");
    }
  }

  // ---------- from the recogniser to the grammar ----------

  lemma CoreDerives(core: string) returns (major: string, minor: string, patch: string)
    requires ParseCore(core).Some?
    ensures NumericIdentifier(major) && NumericIdentifier(minor) && NumericIdentifier(patch)
    ensures core == major + "." + minor + "." + patch
  {
    var parts := Split(core, '.');
    JoinOfSplit(core, '.');
    major, minor, patch := parts[0], parts[1], parts[2];
    IdentifierExactly(major);
    IdentifierExactly(minor);
    IdentifierExactly(patch);
    JoinThree(major, minor, patch);
    assert parts == [major, minor, patch];
  }

  lemma PrereleaseDerives(plain: Derivation, tail: string) returns (d: Derivation)
    requires Grammatical(plain) && plain.prerelease.None? && plain.build.None? && IdentifiersValid(tail, true)
    ensures Grammatical(d) && d.build.None? && Unbuilt(d) == Unbuilt(plain) + "-" + tail
  {
    var parts := Split(tail, '.');
    JoinOfSplit(tail, '.');
    forall p | p in parts ensures PrereleaseIdentifier(p) { IdentifierExactly(p); }
    d := plain.(prerelease := Some(parts));
    var core := plain.major + "." + plain.minor + "." + plain.patch;
    assert core + "" == core;
  }

  lemma PlainDerives(core: string) returns (d: Derivation)
    requires ParseCore(core).Some?
    ensures Grammatical(d) && d.prerelease.None? && d.build.None? && Unbuilt(d) == core
  {
    var major, minor, patch := CoreDerives(core);
    d := Derivation(major, minor, patch, None, None);
  }

  lemma UnbuiltDerives(text: string) returns (d: Derivation)
    requires ParseUnbuilt(text).Some?
    ensures Grammatical(d) && d.build.None? && Unbuilt(d) == text
  {
    var cut := SplitOnce(text, '-');
    if cut.None? {
      d := PlainDerives(text);
    } else {
      var plain := PlainDerives(cut.value.0);
      d := PrereleaseDerives(plain, cut.value.1);
      CutParts(text, '-');
    }
  }

  lemma BuildDerives(unbuilt: Derivation, tail: string) returns (d: Derivation)
    requires Grammatical(unbuilt) && unbuilt.build.None? && IdentifiersValid(tail, false)
    ensures Grammatical(d) && Spelling(d) == Unbuilt(unbuilt) + "+" + tail
  {
    var parts := Split(tail, '.');
    JoinOfSplit(tail, '.');
    forall p | p in parts ensures BuildIdentifier(p) { IdentifierExactly(p); }
    d := unbuilt.(build := Some(parts));
    assert Unbuilt(d) == Unbuilt(unbuilt);
  }

  lemma AcceptedDerives(version: string) returns (d: Derivation)
    requires ParseSemver(version).Some?
    ensures Grammatical(d) && Spelling(d) == version
  {
    var cut := SplitOnce(version, '+');
    if cut.None? {
      d := UnbuiltDerives(version);
      PlainSpelling(d);
    } else {
      var unbuilt := UnbuiltDerives(cut.value.0);
      d := BuildDerives(unbuilt, cut.value.1);
      CutParts(version, '+');
    }
  }

  lemma PlainSpelling(d: Derivation)
    requires d.build.None?
    ensures Spelling(d) == Unbuilt(d)
  {
  }

  lemma CutParts(s: string, c: char)
    requires SplitOnce(s, c).Some?
    ensures s == SplitOnce(s, c).value.0 + [c] + SplitOnce(s, c).value.1
  {
  }

  /** The recogniser accepts exactly the language of the grammar, up to the 64-bit bound. */
  lemma RecognisesTheGrammar(version: string)
    ensures ParseSemver(version).Some? <==> exists d :: Grammatical(d) && InRange(d) && Spelling(d) == version
    ensures forall d :: Grammatical(d) && InRange(d) && Spelling(d) == version ==>
      ParseSemver(version) == Some(Numbers(d))
  {
    forall d | Grammatical(d) && Spelling(d) == version
      ensures ParseSemver(version) == if InRange(d) then Some(Numbers(d)) else None
    {
      SpellingParses(d);
    }
    if ParseSemver(version).Some? {
      var d := AcceptedDerives(version);
      assert InRange(d);
    }
  }

  lemma NumericIsRendered(s: string)
    requires NumericIdentifier(s)
    ensures Render(Value(s)) == s
  {
    IdentifierExactly(s);
    ValueRoundTrip(s);
  }

  /** Conversely an accepted version is the rendering of its numbers, with some valid prerelease and build. */
  lemma AcceptedIsRendered(version: string) returns (prerelease: Option<seq<string>>, build: Option<seq<string>>)
    requires ParseSemver(version).Some?
    ensures var (major, minor, patch) := ParseSemver(version).value;
            var d := Derivation(Render(major), Render(minor), Render(patch), prerelease, build);
      Grammatical(d) && InRange(d) && Spelling(d) == version
  {
    var d := AcceptedDerives(version);
    SpellingParses(d);
    NumericIsRendered(d.major);
    NumericIsRendered(d.minor);
    NumericIsRendered(d.patch);
    prerelease, build := d.prerelease, d.build;
  }

  /** Rendering any three 64-bit numbers, with any valid prerelease and build, and parsing gives them back. */
  lemma NumbersRoundTrip(major: nat, minor: nat, patch: nat, prerelease: Option<seq<string>>,
                         build: Option<seq<string>>)
    requires major < NUMBER_RANGE && minor < NUMBER_RANGE && patch < NUMBER_RANGE
    requires prerelease.Some? ==>
      prerelease.value != [] && forall p :: p in prerelease.value ==> PrereleaseIdentifier(p)
    requires build.Some? ==> build.value != [] && forall p :: p in build.value ==> BuildIdentifier(p)
    ensures ParseSemver(Spelling(Derivation(Render(major), Render(minor), Render(patch), prerelease, build)))
         == Some((major, minor, patch))
  {
    RenderRoundTrip(major);
    RenderRoundTrip(minor);
    RenderRoundTrip(patch);
    IdentifierExactly(Render(major));
    IdentifierExactly(Render(minor));
    IdentifierExactly(Render(patch));
    SpellingParses(Derivation(Render(major), Render(minor), Render(patch), prerelease, build));
  }
}
