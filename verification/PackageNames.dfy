/**
 Two independently written normalisers for package names (the rule of the Normalized Names section of
 PEP 503): a loop that replaces double hyphens until none is left, and a substitution of separator runs.
 */
module PackageNames {
  import opened Common

  /** A value found where a name is expected; `shown` is what `str` makes of it. */
  datatype PyValue = PyStr(text: string) | PyOther(shown: string)

  predicate IsSpace(c: char) {
    c == ' ' || '\t' <= c <= '\r' || '\U{001C}' <= c <= '\U{001F}'
  }

  predicate IsSeparator(c: char) {
    c == '-' || c == '_' || c == '.'
  }

  function LowerChar(c: char): (r: char)
    ensures IsSpace(r) == IsSpace(c) && IsSeparator(r) == IsSeparator(c) && (r == '-' <==> c == '-')
  {
    if 'A' <= c <= 'Z' then c - 'A' + 'a' else c
  }

  function Lower(s: string): (r: string)
    ensures |r| == |s| && forall i | 0 <= i < |s| :: r[i] == LowerChar(s[i])
  {
    seq(|s|, i requires 0 <= i < |s| => LowerChar(s[i]))
  }

  function StripLeft(s: string): string {
    if |s| > 0 && IsSpace(s[0]) then StripLeft(s[1..]) else s
  }

  function StripRight(s: string): string {
    if |s| > 0 && IsSpace(s[|s| - 1]) then StripRight(s[..|s| - 1]) else s
  }

  function Strip(s: string): string {
    StripRight(StripLeft(s))
  }

  /** Neither end is white space. */
  predicate Trim(s: string) {
    |s| > 0 ==> !IsSpace(s[0]) && !IsSpace(s[|s| - 1])
  }

  // ---------------------------------------------------------------------------------------
  // Run collapsing, as the regular expression does it

  function SkipSeparators(s: string): (r: string)
    ensures |r| <= |s| && (|r| > 0 ==> !IsSeparator(r[0]) && r[|r| - 1] == s[|s| - 1])
    ensures forall c | c in r :: c in s
  {
    if |s| > 0 && IsSeparator(s[0]) then SkipSeparators(s[1..]) else s
  }

  /** Every maximal run of separators becomes one hyphen. */
  function CollapseRuns(s: string): string
    decreases |s|
  {
    if |s| == 0 then ""
    else if IsSeparator(s[0]) then "-" + CollapseRuns(SkipSeparators(s[1..]))
    else [s[0]] + CollapseRuns(s[1..])
  }

  // ---------------------------------------------------------------------------------------
  // Replacing until stable

  /** Underscores and dots turned into hyphens. */
  function Hyphenated(s: string): (r: string)
    ensures |r| == |s| && forall i | 0 <= i < |s| :: r[i] == if IsSeparator(s[i]) then '-' else s[i]
  {
    seq(|s|, i requires 0 <= i < |s| => if IsSeparator(s[i]) then '-' else s[i])
  }

  predicate HasDouble(s: string) {
    exists i | 0 <= i < |s| - 1 :: s[i] == '-' && s[i + 1] == '-'
  }

  /** One pass of replacing, left to right and without overlap. */
  function ReplaceDoubles(s: string): string
    decreases |s|
  {
    if |s| == 0 then ""
    else if |s| >= 2 && s[0] == '-' && s[1] == '-' then "-" + ReplaceDoubles(s[2..])
    else [s[0]] + ReplaceDoubles(s[1..])
  }

  lemma {:induction false} ReplaceShortens(s: string)
    ensures |ReplaceDoubles(s)| <= |s|
    ensures HasDouble(s) ==> |ReplaceDoubles(s)| < |s|
    decreases |s|
  {
    if |s| >= 2 && s[0] == '-' && s[1] == '-' {
      ReplaceShortens(s[2..]);
    } else if |s| > 0 {
      ReplaceShortens(s[1..]);
      if HasDouble(s) {
        var i :| 0 <= i < |s| - 1 && s[i] == '-' && s[i + 1] == '-';
        assert s[1..][i - 1] == '-' && s[1..][i] == '-';
      }
    }
  }

  /** A leading hyphen in front of a collapsed text is absorbed by one that is already there. */
  lemma {:induction false} CollapseAfterHyphen(s: string)
    ensures CollapseRuns("-" + s) == "-" + CollapseRuns(SkipSeparators(s))
  {
    assert ("-" + s)[1..] == s;
  }

  lemma {:induction false} SkipOfReplace(s: string)
    ensures SkipSeparators(ReplaceDoubles(s)) == ReplaceDoubles(SkipSeparators(s))
    decreases |s|
  {
    if |s| > 0 && IsSeparator(s[0]) {
      if |s| >= 2 && s[0] == '-' && s[1] == '-' {
        SkipOfReplace(s[2..]);
        assert ("-" + ReplaceDoubles(s[2..]))[1..] == ReplaceDoubles(s[2..]);
        assert s[1..][1..] == s[2..];
        assert SkipSeparators(s) == SkipSeparators(s[2..]);
      } else {
        SkipOfReplace(s[1..]);
        assert ([s[0]] + ReplaceDoubles(s[1..]))[1..] == ReplaceDoubles(s[1..]);
      }
    }
  }

  /** A pass of replacing does not change what the runs collapse to. */
  lemma {:induction false} ReplaceKeepsCollapse(s: string)
    ensures CollapseRuns(ReplaceDoubles(s)) == CollapseRuns(s)
    decreases |s|
  {
    if |s| == 0 {
    } else if |s| >= 2 && s[0] == '-' && s[1] == '-' {
      CollapseAfterHyphen(ReplaceDoubles(s[2..]));
      SkipOfReplace(s[2..]);
      ReplaceKeepsCollapse(SkipSeparators(s[2..]));
      assert s[1..][1..] == s[2..];
    } else if IsSeparator(s[0]) {
      assert ([s[0]] + ReplaceDoubles(s[1..]))[1..] == ReplaceDoubles(s[1..]);
      SkipOfReplace(s[1..]);
      ReplaceKeepsCollapse(SkipSeparators(s[1..]));
    } else {
      assert ([s[0]] + ReplaceDoubles(s[1..]))[1..] == ReplaceDoubles(s[1..]);
      ReplaceKeepsCollapse(s[1..]);
    }
  }

  /** Hyphens only, and never two in a row: nothing is left to collapse. */
  predicate Collapsed(s: string) {
    && (forall i | 0 <= i < |s| :: IsSeparator(s[i]) ==> s[i] == '-')
    && !HasDouble(s)
  }

  lemma {:induction false} CollapsedTail(s: string)
    requires Collapsed(s) && |s| > 0
    ensures Collapsed(s[1..]) && (|s| > 1 && IsSeparator(s[0]) ==> !IsSeparator(s[1]))
  {
    assert forall i | 0 <= i < |s[1..]| :: s[1..][i] == s[i + 1];
  }

  lemma {:induction false} CollapsedIsFixed(s: string)
    requires Collapsed(s)
    ensures CollapseRuns(s) == s
    decreases |s|
  {
    if |s| > 0 {
      CollapsedTail(s);
      CollapsedIsFixed(s[1..]);
      if IsSeparator(s[0]) && |s| > 1 {
        assert SkipSeparators(s[1..]) == s[1..];
      }
      assert s == [s[0]] + s[1..];
    }
  }

  lemma {:induction false} SkipOfHyphenated(s: string)
    ensures SkipSeparators(Hyphenated(s)) == Hyphenated(SkipSeparators(s))
    decreases |s|
  {
    if |s| > 0 && IsSeparator(s[0]) {
      assert Hyphenated(s)[1..] == Hyphenated(s[1..]);
      SkipOfHyphenated(s[1..]);
    }
  }

  lemma {:induction false} HyphenatingKeepsCollapse(s: string)
    ensures CollapseRuns(Hyphenated(s)) == CollapseRuns(s)
    decreases |s|
  {
    if |s| > 0 {
      assert Hyphenated(s)[1..] == Hyphenated(s[1..]);
      if IsSeparator(s[0]) {
        SkipOfHyphenated(s[1..]);
        HyphenatingKeepsCollapse(SkipSeparators(s[1..]));
      } else {
        HyphenatingKeepsCollapse(s[1..]);
      }
    }
  }

  // ---------------------------------------------------------------------------------------
  // The two normalisers

  /** The manifest builder's: it accepts any value and renders it first. */
  method ManifestName(value: PyValue) returns (name: Option<string>)
    ensures name == ManifestNameOf(value)
  {
    var rendered := if value.PyStr? then value.text else value.shown;
    var text := Hyphenated(Lower(Strip(rendered)));
    HyphenatingKeepsCollapse(Lower(Strip(rendered)));
    while HasDouble(text)
      invariant CollapseRuns(text) == CollapseRuns(Lower(Strip(rendered)))
      invariant forall i | 0 <= i < |text| :: IsSeparator(text[i]) ==> text[i] == '-'
      decreases |text|
    {
      ReplaceShortens(text);
      ReplaceKeepsCollapse(text);
      ReplaceOnlyHyphens(text);
      text := ReplaceDoubles(text);
    }
    CollapsedIsFixed(text);
    name := if |text| == 0 then None else Some(text);
  }

  lemma {:induction false} ReplaceOnlyHyphens(s: string)
    requires forall i | 0 <= i < |s| :: IsSeparator(s[i]) ==> s[i] == '-'
    ensures forall i | 0 <= i < |ReplaceDoubles(s)| :: IsSeparator(ReplaceDoubles(s)[i]) ==> ReplaceDoubles(s)[i] == '-'
    decreases |s|
  {
    if |s| >= 2 && s[0] == '-' && s[1] == '-' {
      ReplaceOnlyHyphens(s[2..]);
    } else if |s| > 0 {
      ReplaceOnlyHyphens(s[1..]);
    }
  }

  function ManifestNameOf(value: PyValue): Option<string> {
    var text := CollapseRuns(Lower(Strip(if value.PyStr? then value.text else value.shown)));
    if |text| == 0 then None else Some(text)
  }

  /** The SBOM builder's: it insists on a string that is not blank. */
  function SbomName(value: PyValue): Option<string> {
    if !value.PyStr? || |Strip(value.text)| == 0 then None
    else Some(CollapseRuns(Lower(Strip(value.text))))
  }

  lemma {:induction false} CollapseKeepsNonEmpty(s: string)
    ensures |CollapseRuns(s)| == 0 <==> |s| == 0
  {
  }

  /** On strings the two agree, errors included; on anything else only the manifest builder answers. */
  lemma NormalisersAgree(value: PyValue)
    ensures value.PyStr? ==> SbomName(value) == ManifestNameOf(value)
    ensures !value.PyStr? ==> SbomName(value) == None
  {
    if value.PyStr? { CollapseKeepsNonEmpty(Lower(Strip(value.text))); }
  }

  // ---------------------------------------------------------------------------------------
  // Idempotence

  lemma {:induction false} StripTrims(s: string)
    ensures Trim(Strip(s))
  {
    StripLeftTrims(s);
    StripRightTrims(StripLeft(s));
  }

  lemma {:induction false} StripLeftTrims(s: string)
    ensures |StripLeft(s)| > 0 ==> !IsSpace(StripLeft(s)[0])
  {
    if |s| > 0 && IsSpace(s[0]) { StripLeftTrims(s[1..]); }
  }

  lemma {:induction false} StripRightTrims(s: string)
    requires |s| > 0 ==> !IsSpace(s[0])
    ensures Trim(StripRight(s))
  {
    if |s| > 0 && IsSpace(s[|s| - 1]) { StripRightTrims(s[..|s| - 1]); }
  }

  lemma {:induction false} CollapseFacts(s: string)
    ensures Collapsed(CollapseRuns(s))
    ensures |s| > 0 ==> |CollapseRuns(s)| > 0 && (CollapseRuns(s)[0] == if IsSeparator(s[0]) then '-' else s[0])
    ensures forall c | c in CollapseRuns(s) :: c == '-' || c in s
    ensures |s| > 0 && !IsSpace(s[|s| - 1]) ==> !IsSpace(CollapseRuns(s)[|CollapseRuns(s)| - 1])
    decreases |s|
  {
    if |s| > 0 {
      var rest := if IsSeparator(s[0]) then SkipSeparators(s[1..]) else s[1..];
      CollapseFacts(rest);
      var head := if IsSeparator(s[0]) then '-' else s[0];
      assert CollapseRuns(s) == [head] + CollapseRuns(rest);
      PrependCollapsed(head, CollapseRuns(rest));
    }
  }

  lemma {:induction false} PrependCollapsed(c: char, s: string)
    requires Collapsed(s) && (IsSeparator(c) ==> c == '-') && (c == '-' && |s| > 0 ==> !IsSeparator(s[0]))
    ensures Collapsed([c] + s)
  {
    assert forall i | 0 < i < |[c] + s| :: ([c] + s)[i] == s[i - 1];
  }

  /** A normalised name is its own normalisation, for both normalisers. */
  lemma {:induction false} NormalisingIsIdempotent(value: PyValue)
    requires ManifestNameOf(value).Some?
    ensures ManifestNameOf(PyStr(ManifestNameOf(value).value)) == ManifestNameOf(value)
    ensures SbomName(PyStr(ManifestNameOf(value).value)) == ManifestNameOf(value)
  {
    hide Strip, Lower, CollapseRuns, Collapsed, Trim, SbomName;
    var text := if value.PyStr? then value.text else value.shown;
    var stripped := Strip(text);
    var name := CollapseRuns(Lower(stripped));
    StripTrims(text);
    CollapseTrims(stripped);
    TrimIsFixed(name);
    CollapseKeepsCase(stripped);
    CollapseFacts(Lower(stripped));
    CollapsedIsFixed(name);
    NormalisersAgree(PyStr(name));
  }

  lemma {:induction false} TrimIsFixed(s: string)
    requires Trim(s)
    ensures Strip(s) == s
  {
  }

  lemma {:induction false} CollapseTrims(s: string)
    requires Trim(s)
    ensures Trim(CollapseRuns(Lower(s)))
  {
    hide CollapseRuns, Collapsed;
    CollapseFacts(Lower(s));
    if |s| == 0 { CollapseKeepsNonEmpty(Lower(s)); }
  }

  lemma {:induction false} CollapseKeepsCase(s: string)
    ensures Lower(CollapseRuns(Lower(s))) == CollapseRuns(Lower(s))
  {
    hide CollapseRuns, Collapsed;
    var lower := Lower(s);
    var name := CollapseRuns(lower);
    CollapseFacts(lower);
    forall i | 0 <= i < |name| ensures LowerChar(name[i]) == name[i] {
      assert name[i] in name;
      if name[i] != '-' { var j :| 0 <= j < |lower| && lower[j] == name[i]; }
    }
  }

  // ---------------------------------------------------------------------------------------
  // What a normalised name looks like

  /** No underscore, dot or capital letter, and no two hyphens in a row. */
  predicate IsNormal(s: string) {
    && (forall i | 0 <= i < |s| :: s[i] != '_' && s[i] != '.' && !('A' <= s[i] <= 'Z'))
    && (forall i | 0 <= i < |s| - 1 :: !(s[i] == '-' && s[i + 1] == '-'))
  }

  /** The characters other than hyphen, underscore and dot, in order. */
  function Letters(s: string): string {
    if |s| == 0 then ""
    else (if s[0] == '-' || s[0] == '_' || s[0] == '.' then "" else [s[0]]) + Letters(s[1..])
  }

  /** How many runs of hyphens, underscores and dots there are; `inRun` tells whether one is going on already. */
  function Runs(s: string, inRun: bool): nat {
    if |s| == 0 then 0
    else if s[0] == '-' || s[0] == '_' || s[0] == '.' then (if inRun then 0 else 1) + Runs(s[1..], true)
    else Runs(s[1..], false)
  }

  lemma {:induction false} SkipKeepsLetters(s: string)
    ensures Letters(SkipSeparators(s)) == Letters(s) && Runs(SkipSeparators(s), false) == Runs(s, true)
  {
    if |s| > 0 && IsSeparator(s[0]) { SkipKeepsLetters(s[1..]); }
  }

  lemma {:induction false} CollapseKeepsLetters(s: string)
    ensures Letters(CollapseRuns(s)) == Letters(s) && Runs(CollapseRuns(s), false) == Runs(s, false)
    decreases |s|
  {
    if |s| > 0 {
      if IsSeparator(s[0]) {
        var rest := SkipSeparators(s[1..]);
        SkipKeepsLetters(s[1..]);
        CollapseKeepsLetters(rest);
        assert ("-" + CollapseRuns(rest))[1..] == CollapseRuns(rest);
        CollapseFacts(rest);
        RunsAfterSeparator(CollapseRuns(rest));
        RunsAfterSeparator(rest);
      } else {
        CollapseKeepsLetters(s[1..]);
        assert ([s[0]] + CollapseRuns(s[1..]))[1..] == CollapseRuns(s[1..]);
      }
    }
  }

  lemma {:induction false} RunsAfterSeparator(s: string)
    requires |s| > 0 ==> !IsSeparator(s[0])
    ensures Runs(s, true) == Runs(s, false)
  {
  }

  /**
   A normalised name is in normal form, has the letters of the stripped and lower-cased text in order, and has one
   hyphen for each run of separators in it.
   */
  lemma {:induction false} NormalFormLaw(value: PyValue)
    requires ManifestNameOf(value).Some?
    ensures var text := Lower(Strip(if value.PyStr? then value.text else value.shown));
            var name := ManifestNameOf(value).value;
            IsNormal(name) && Letters(name) == Letters(text) && Runs(name, false) == Runs(text, false)
  {
    hide Strip, CollapseRuns, Letters, Runs, Lower;
    var stripped := Strip(if value.PyStr? then value.text else value.shown);
    CollapseKeepsLetters(Lower(stripped));
    CollapseFacts(Lower(stripped));
    CollapseKeepsCase(stripped);
    var name := CollapseRuns(Lower(stripped));
    forall i | 0 <= i < |name| ensures !('A' <= name[i] <= 'Z') {
      assert Lower(name)[i] == LowerChar(name[i]) == name[i];
    }
  }
}
