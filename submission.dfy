/**
 * The researcher's submission page: initials, the yearly sequence scan,
 * the identifier format, the upload metadata map, the new application
 * record and the rule that only a pending application may be edited.
 */
module Submission {
  import opened Wrappers
  import opened Text
  import opened Applications

  /**
   * `getInitials`: the upper-cased first letters of the first and the last
   * space-separated word of the trimmed name, or `XX` when the trimmed name
   * holds no space (a single word, or nothing).
   */
  function GetInitials(fullName: string): (r: string)
    ensures |r| == 2
    ensures var t := Trim(fullName);
            if ' ' !in t then r == "XX"
            else
              0 <= LastIndexOf(t, ' ') + 1 < |t| &&
              r == [ToUpper(t[0]), ToUpper(t[LastIndexOf(t, ' ') + 1])]
  {
    InitialsOf(Trim(fullName))
  }

  /** `getInitials` after the trim: the split on spaces and the two first letters. */
  function InitialsOf(t: string): (r: string)
    requires t != [] ==> !IsWhitespace(t[0]) && !IsWhitespace(t[|t| - 1])
    ensures |r| == 2
    ensures if ' ' !in t then r == "XX"
            else
              0 <= LastIndexOf(t, ' ') + 1 < |t| &&
              r == [ToUpper(t[0]), ToUpper(t[LastIndexOf(t, ' ') + 1])]
  {
    var names := Split(t, ' ');
    SplitTrimmed(t, ' ');
    if |names| < 2 then "XX"
    else [ToUpper(names[0][0]), ToUpper(names[|names| - 1][0])]
  }

  const DocxType := "application/vnd.openxmlformats-officedocument.wordprocessingml.document"

  /** `getFileExtension`: the extension for the three known document types, `.pdf` otherwise. */
  function GetFileExtension(mimeType: string): (ext: string)
    ensures ext == ".doc" <==> mimeType == "application/msword"
    ensures ext == ".docx" <==> mimeType == DocxType
    ensures ext == ".pdf" <==> mimeType != "application/msword" && mimeType != DocxType
  {
    if mimeType == "application/pdf" then ".pdf"
    else if mimeType == "application/msword" then ".doc"
    else if mimeType == DocxType then ".docx"
    else ".pdf"
  }

  /**
   * The pattern the yearly scan matches identifiers against. `AsWritten` is
   * the source's `SPUP_\d{4}_(\d{5})_SR_[A-Z]{2}`; `AnyWidth` is
   * `SPUP_\d{4}_(\d{5,})_SR_`, which also recognises every identifier the
   * generator itself can produce.
   */
  datatype Pattern = AsWritten | AnyWidth

  /** `SPUP_`, four digits and `_` at position `i`. */
  predicate HeadAt(s: string, i: nat) {
    i + 10 <= |s| && s[i..i + 5] == "SPUP_" && AllDigits(s[i + 5..i + 9]) && s[i + 9] == '_'
  }

  /** The length of the run of digits starting at `j`. */
  function DigitRun(s: string, j: nat): (n: nat)
    requires j <= |s|
    ensures j + n <= |s| && AllDigits(s[j..j + n])
    ensures j + n < |s| ==> !IsDigit(s[j + n])
    decreases |s| - j
  {
    if j < |s| && IsDigit(s[j]) then
      var n := 1 + DigitRun(s, j + 1);
      assert s[j..j + n] == [s[j]] + s[j + 1..j + n];
      n
    else 0
  }

  /** The pattern matches `s` starting at position `i`. */
  predicate MatchAt(p: Pattern, s: string, i: nat) {
    HeadAt(s, i) &&
    match p
    case AsWritten =>
      i + 21 <= |s| && AllDigits(s[i + 10..i + 15]) && s[i + 15..i + 19] == "_SR_"
      && IsUpperLetter(s[i + 19]) && IsUpperLetter(s[i + 20])
    case AnyWidth =>
      var n := DigitRun(s, i + 10);
      n >= 5 && i + 14 + n <= |s| && s[i + 10 + n..i + 14 + n] == "_SR_"
  }

  /** Where the captured digit group of a match at `i` ends. */
  function CaptureEnd(p: Pattern, s: string, i: nat): (e: nat)
    requires MatchAt(p, s, i)
    ensures i + 10 <= e <= |s| && AllDigits(s[i + 10..e])
  {
    match p
    case AsWritten => i + 15
    case AnyWidth => i + 10 + DigitRun(s, i + 10)
  }

  /** The leftmost position at or after `from` where the pattern matches (the regex is unanchored). */
  function LeftmostMatch(p: Pattern, s: string, from: nat): (r: Option<nat>)
    ensures r.Some? ==> from <= r.value && MatchAt(p, s, r.value)
    ensures forall k :: from <= k && (r.None? || k < r.value) ==> !MatchAt(p, s, k)
    decreases |s| - from
  {
    if from + 10 > |s| then None
    else if MatchAt(p, s, from) then Some(from)
    else LeftmostMatch(p, s, from + 1)
  }

  /** `parseInt` of the captured group of the leftmost match, if the identifier matches at all. */
  function SequenceNumber(p: Pattern, id: string): Option<nat> {
    match LeftmostMatch(p, id, 0)
    case None => None
    case Some(i) => Some(DigitsValue(id[i + 10..CaptureEnd(p, id, i)]))
  }

  /**
   * The highest sequence number among the identifiers, 0 when none matches:
   * it bounds every matched number and is itself one of them.
   */
  function MaxNumber(p: Pattern, ids: seq<string>): (m: nat)
    ensures forall k :: 0 <= k < |ids| && SequenceNumber(p, ids[k]).Some? ==>
              SequenceNumber(p, ids[k]).value <= m
    ensures m == 0 || exists k :: 0 <= k < |ids| && SequenceNumber(p, ids[k]) == Some(m)
  {
    if ids == [] then 0
    else
      var front := ids[..|ids| - 1];
      var m := MaxNumber(p, front);
      var last := SequenceNumber(p, ids[|ids| - 1]);
      var r := if last.Some? && last.value > m then last.value else m;
      assert forall k :: 0 <= k < |front| ==> front[k] == ids[k];
      assert forall k :: 0 <= k < |ids| - 1 && SequenceNumber(p, ids[k]).Some? ==> SequenceNumber(p, ids[k]).value <= m;
      r
  }

  /** The number the next identifier gets: one more than the highest in use. */
  function NextSequence(p: Pattern, ids: seq<string>): nat {
    MaxNumber(p, ids) + 1
  }

  /** The scan of `generateDocumentId`: a running `Math.max` over the snapshot, plus one. */
  method ScanNextSequence(p: Pattern, ids: seq<string>) returns (next: nat)
    ensures next == NextSequence(p, ids)
  {
    var maxNumber := 0;
    for i := 0 to |ids|
      invariant maxNumber == MaxNumber(p, ids[..i])
    {
      assert ids[..i + 1][..i] == ids[..i];
      match SequenceNumber(p, ids[i]) {
        case Some(num) =>
          maxNumber := if num > maxNumber then num else maxNumber;
        case None =>
      }
    }
    assert ids[..|ids|] == ids;
    next := maxNumber + 1;
  }

  /** The sequence number as written into the identifier: zero-padded to five digits. */
  function PaddedNumber(n: nat): string {
    PadStart(NatToString(n), 5, '0')
  }

  /**
   * The padded number keeps its value, has at least five digits and is
   * exactly five digits long precisely below 100000 (it is never cut).
   */
  lemma PaddedNumberDigits(n: nat)
    ensures |PaddedNumber(n)| >= 5 && AllDigits(PaddedNumber(n))
    ensures DigitsValue(PaddedNumber(n)) == n
    ensures |PaddedNumber(n)| == 5 <==> n < 100000
  {
    PaddedValue(n, 5);
    FiveDigits(n);
  }

  lemma FiveDigits(n: nat)
    ensures |NatToString(n)| <= 5 <==> n < 100000
  {
    NatToStringLength(n, 5);
    assert Pow10(5) == 100000;
  }

  /** `SPUP_{year}_{nnnnn}_SR_{initials}`. */
  function FormatId(year: nat, n: nat, initials: string): string {
    "SPUP_" + NatToString(year) + "_" + PaddedNumber(n) + "_SR_" + initials
  }

  lemma FourDigitYear(year: nat)
    requires 1000 <= year <= 9999
    ensures |NatToString(year)| == 4
  {
    NatToStringLength(year, 4);
    NatToStringLength(year, 3);
    assert Pow10(3) == 1000 && Pow10(4) == 10000;
  }

  lemma {:induction false} DigitRunBlock(s: string, j: nat, len: nat)
    requires j + len <= |s| && AllDigits(s[j..j + len])
    requires j + len < |s| ==> !IsDigit(s[j + len])
    ensures DigitRun(s, j) == len
    decreases len
  {
    if len > 0 {
      assert IsDigit(s[j..j + len][0]);
      assert s[j + 1..j + len] == s[j..j + len][1..];
      DigitRunBlock(s, j + 1, len - 1);
    }
  }

  /** `SPUP_`, a four-digit numeral and `_` make a head, whatever follows. */
  lemma HeadPrefix(y: string, tail: string)
    requires |y| == 4 && AllDigits(y)
    ensures HeadAt("SPUP_" + y + "_" + tail, 0)
  {
    var s := "SPUP_" + y + "_" + tail;
    assert s[0..5] == "SPUP_";
    assert s[5..9] == y;
  }

  /** A slice of the right operand of a concatenation. */
  lemma ConcatRight(h: string, t: string, a: nat, b: nat)
    requires a <= b <= |t|
    ensures (h + t)[|h| + a..|h| + b] == t[a..b]
  {
  }

  /** The three parts of `{nnnnn}_SR_{initials}`. */
  lemma TailParts(pad: string, initials: string)
    ensures var t := pad + "_SR_" + initials;
            var w := |pad|;
            |t| == w + 4 + |initials| && t[0..w] == pad && t[w..w + 4] == "_SR_" && t[w + 4..|t|] == initials
  {
  }

  /** The head, the capture and the initials of a formatted identifier, as slices. */
  lemma FormatIdSlices(year: nat, n: nat, initials: string)
    requires 1000 <= year <= 9999
    ensures var s := FormatId(year, n, initials);
            var w := |PaddedNumber(n)|;
            |s| == 14 + w + |initials| &&
            HeadAt(s, 0) && s[10..10 + w] == PaddedNumber(n) &&
            s[10 + w..14 + w] == "_SR_" && s[14 + w..|s|] == initials
  {
    FourDigitYear(year);
    FormatSlices(NatToString(year), PaddedNumber(n), initials);
  }

  /** `FormatIdSlices` for any four-digit year numeral and any number block. */
  lemma FormatSlices(y: string, pad: string, initials: string)
    requires |y| == 4 && AllDigits(y)
    ensures var s := "SPUP_" + y + "_" + pad + "_SR_" + initials;
            var w := |pad|;
            |s| == 14 + w + |initials| &&
            HeadAt(s, 0) && s[10..10 + w] == pad &&
            s[10 + w..14 + w] == "_SR_" && s[14 + w..|s|] == initials
  {
    var w := |pad|;
    var head := "SPUP_" + y + "_";
    var tail := pad + "_SR_" + initials;
    var s := "SPUP_" + y + "_" + pad + "_SR_" + initials;
    assert s == head + tail;
    HeadPrefix(y, tail);
    TailParts(pad, initials);
    ConcatRight(head, tail, 0, w);
    ConcatRight(head, tail, w, w + 4);
    ConcatRight(head, tail, w + 4, |tail|);
  }

  /**
   * A head at 0, a block of at least five digits from position 10 and
   * `_SR_` right after it: `AnyWidth` matches at 0 and captures the block.
   */
  lemma AnyWidthAtStart(s: string, w: nat)
    requires HeadAt(s, 0) && 5 <= w && 14 + w <= |s|
    requires AllDigits(s[10..10 + w]) && s[10 + w..14 + w] == "_SR_"
    ensures SequenceNumber(AnyWidth, s) == Some(DigitsValue(s[10..10 + w]))
  {
    assert s[10 + w] == s[10 + w..14 + w][0];
    DigitRunBlock(s, 10, w);
    assert MatchAt(AnyWidth, s, 0);
    assert LeftmostMatch(AnyWidth, s, 0) == Some(0);
  }

  /** `AnyWidthAtStart` for a block of known value. */
  lemma BlockAnyWidth(s: string, pad: string, n: nat, w: nat)
    requires AllDigits(pad) && DigitsValue(pad) == n && |pad| == w && 5 <= w
    requires HeadAt(s, 0) && 14 + w <= |s| && s[10..10 + w] == pad
    requires s[10 + w..14 + w] == "_SR_"
    ensures SequenceNumber(AnyWidth, s) == Some(n)
  {
    AnyWidthAtStart(s, w);
  }

  /** `AnyWidth` reads the number back from a head, a block of known value and `_SR_`. */
  lemma FormattedAnyWidth(y: string, pad: string, n: nat, initials: string)
    requires |y| == 4 && AllDigits(y)
    requires AllDigits(pad) && DigitsValue(pad) == n && 5 <= |pad|
    ensures SequenceNumber(AnyWidth, "SPUP_" + y + "_" + pad + "_SR_" + initials) == Some(n)
  {
    var s := "SPUP_" + y + "_" + pad + "_SR_" + initials;
    var w := |pad|;
    FormatSlices(y, pad, initials);
    assert HeadAt(s, 0) && 14 + w <= |s|;
    assert s[10..10 + w] == pad;
    assert s[10 + w..14 + w] == "_SR_";
    BlockAnyWidth(s, pad, n, w);
  }

  /** Every identifier the generator formats is recognised by `AnyWidth` with its own number. */
  lemma FormatIdAnyWidth(year: nat, n: nat, initials: string)
    requires 1000 <= year <= 9999
    ensures SequenceNumber(AnyWidth, FormatId(year, n, initials)) == Some(n)
  {
    FourDigitYear(year);
    PaddedNumberDigits(n);
    FormattedAnyWidth(NatToString(year), PaddedNumber(n), n, initials);
  }

  /** Inside a head and a digit block no second `SPUP_` can begin. */
  lemma NoHeadInside(s: string, w: nat, i: nat)
    requires HeadAt(s, 0) && 10 + w <= |s| && AllDigits(s[10..10 + w])
    requires 0 < i < 10 + w
    ensures !HeadAt(s, i)
  {
    assert s[i] != 'S' by {
      if i < 5 {
        assert s[i] == s[0..5][i];
      } else if i < 9 {
        assert IsDigit(s[5..9][i - 5]);
      } else if i > 9 {
        assert IsDigit(s[10..10 + w][i - 10]);
      }
    }
    if i + 10 <= |s| {
      assert s[i..i + 5][0] == s[i];
    }
  }

  /**
   * For an identifier made of a head, a block of `w >= 5` digits, `_SR_`
   * and two more characters, `AsWritten` matches precisely when the block
   * has five digits and the last two characters are capitals, and then it
   * captures the block.
   */
  lemma AsWrittenShape(s: string, w: nat)
    requires HeadAt(s, 0) && 5 <= w && |s| == 16 + w
    requires AllDigits(s[10..10 + w]) && s[10 + w..14 + w] == "_SR_"
    ensures SequenceNumber(AsWritten, s).Some? <==>
              w == 5 && IsUpperLetter(s[14 + w]) && IsUpperLetter(s[15 + w])
    ensures SequenceNumber(AsWritten, s).Some? ==>
              SequenceNumber(AsWritten, s).value == DigitsValue(s[10..10 + w])
  {
    forall i | 0 < i
      ensures !MatchAt(AsWritten, s, i)
    {
      if i < 10 + w {
        NoHeadInside(s, w, i);
      }
    }
    if w == 5 && IsUpperLetter(s[14 + w]) && IsUpperLetter(s[15 + w]) {
      assert MatchAt(AsWritten, s, 0);
      assert LeftmostMatch(AsWritten, s, 0) == Some(0);
    } else if w > 5 {
      assert s[15] == s[10..10 + w][5];
      assert s[15..19][0] == s[15];
      assert !MatchAt(AsWritten, s, 0);
    } else {
      assert !MatchAt(AsWritten, s, 0);
    }
  }


  /** `AsWrittenShape` for a block of known value. */
  lemma BlockAsWritten(s: string, pad: string, n: nat, a: char, b: char)
    requires AllDigits(pad) && DigitsValue(pad) == n && 5 <= |pad| && (|pad| == 5 <==> n < 100000)
    requires HeadAt(s, 0) && |s| == 16 + |pad| && s[10..10 + |pad|] == pad
    requires s[10 + |pad|..14 + |pad|] == "_SR_" && s[14 + |pad|] == a && s[15 + |pad|] == b
    ensures SequenceNumber(AsWritten, s) == Some(n) <==> (n < 100000 && IsUpperLetter(a) && IsUpperLetter(b))
    ensures SequenceNumber(AsWritten, s).Some? ==> SequenceNumber(AsWritten, s) == Some(n)
  {
    AsWrittenShape(s, |pad|);
  }

  /** `AsWrittenShape` for a head, a block of known value, `_SR_` and two initials. */
  lemma FormattedAsWritten(y: string, pad: string, n: nat, initials: string)
    requires |y| == 4 && AllDigits(y) && |initials| == 2
    requires AllDigits(pad) && DigitsValue(pad) == n && 5 <= |pad| && (|pad| == 5 <==> n < 100000)
    ensures var s := "SPUP_" + y + "_" + pad + "_SR_" + initials;
            (SequenceNumber(AsWritten, s) == Some(n) <==>
               (n < 100000 && IsUpperLetter(initials[0]) && IsUpperLetter(initials[1]))) &&
            (SequenceNumber(AsWritten, s).Some? ==> SequenceNumber(AsWritten, s) == Some(n))
  {
    var s := "SPUP_" + y + "_" + pad + "_SR_" + initials;
    var w := |pad|;
    FormatSlices(y, pad, initials);
    assert s[14 + w] == s[14 + w..|s|][0] && s[15 + w] == s[14 + w..|s|][1];
    BlockAsWritten(s, pad, n, initials[0], initials[1]);
  }

  /**
   * `AsWritten` recognises a formatted identifier with two-character
   * initials, with its own number, precisely when the number has five
   * digits and both initials are capital letters; otherwise it does not
   * recognise it at all.
   */
  lemma FormatIdAsWritten(year: nat, n: nat, initials: string)
    requires 1000 <= year <= 9999 && |initials| == 2
    ensures SequenceNumber(AsWritten, FormatId(year, n, initials)) == Some(n) <==>
              (n < 100000 && IsUpperLetter(initials[0]) && IsUpperLetter(initials[1]))
    ensures SequenceNumber(AsWritten, FormatId(year, n, initials)).Some? ==>
              SequenceNumber(AsWritten, FormatId(year, n, initials)) == Some(n)
  {
    FourDigitYear(year);
    PaddedNumberDigits(n);
    FormattedAsWritten(NatToString(year), PaddedNumber(n), n, initials);
  }

  /** The identifier `generateDocumentId` returns for a snapshot of this year's identifiers. */
  function DocumentId(p: Pattern, principalInvestigator: string, yearIds: seq<string>, year: nat): string {
    FormatId(year, NextSequence(p, yearIds), GetInitials(principalInvestigator))
  }

  /** `generateDocumentId` over one snapshot: initials, scan, format. */
  method GenerateDocumentId(p: Pattern, principalInvestigator: string, yearIds: seq<string>, year: nat)
    returns (id: string)
    ensures id == DocumentId(p, principalInvestigator, yearIds, year)
  {
    var initials := GetInitials(principalInvestigator);
    var next := ScanNextSequence(p, yearIds);
    id := FormatId(year, next, initials);
  }

  /**
   * With the corrected scan the generated identifier is never one of the
   * snapshot's identifiers, whatever the name and the snapshot.
   */
  lemma FreshIdNotInSnapshot(principalInvestigator: string, yearIds: seq<string>, year: nat)
    requires 1000 <= year <= 9999
    ensures DocumentId(AnyWidth, principalInvestigator, yearIds, year) !in yearIds
  {
    var n := NextSequence(AnyWidth, yearIds);
    var id := DocumentId(AnyWidth, principalInvestigator, yearIds, year);
    FormatIdAnyWidth(year, n, GetInitials(principalInvestigator));
  }

  /** The initials of a name whose last word starts with a parenthesis. */
  lemma InitialsWithParenthesis()
    ensures GetInitials(ParenthesisName) == "M("
  {
    ParenthesisNameShape();
    InitialsAroundLastSpace(ParenthesisName, 12);
  }

  const ParenthesisName := "Maria Santos (PI)"

  /** `Maria Santos (PI)` has its last space at 12 and no surrounding whitespace. */
  lemma ParenthesisNameShape()
    ensures |ParenthesisName| == 17 && ParenthesisName[12] == ' '
    ensures forall j :: 12 < j < |ParenthesisName| ==> ParenthesisName[j] != ' '
    ensures !IsWhitespace(ParenthesisName[0]) && !IsWhitespace(ParenthesisName[16])
    ensures ParenthesisName[0] == 'M' && ParenthesisName[13] == '('
  {
  }

  /**
   * For a name without surrounding whitespace whose last space is at `i`,
   * the initials are its first character and the one after that space.
   */
  lemma InitialsAroundLastSpace(name: string, i: nat)
    requires 0 < i < |name| - 1 && name[i] == ' '
    requires forall j :: i < j < |name| ==> name[j] != ' '
    requires !IsWhitespace(name[0]) && !IsWhitespace(name[|name| - 1])
    ensures GetInitials(name) == [ToUpper(name[0]), ToUpper(name[i + 1])]
  {
    TrimUnchanged(name);
    LastIndexOfAt(name, ' ', i);
  }

  /**
   * As written, an identifier the scan cannot see (its initials are not two
   * capitals, or its number has six digits) is handed out again: once it is
   * stored, the next submission under the same name gets the very same
   * identifier, and `setDoc` overwrites the first application.
   */
  lemma AsWrittenRegeneratesId(principalInvestigator: string, yearIds: seq<string>, year: nat)
    requires 1000 <= year <= 9999
    requires var initials := GetInitials(principalInvestigator);
             NextSequence(AsWritten, yearIds) >= 100000 ||
             !IsUpperLetter(initials[0]) || !IsUpperLetter(initials[1])
    ensures var id := DocumentId(AsWritten, principalInvestigator, yearIds, year);
            DocumentId(AsWritten, principalInvestigator, yearIds + [id], year) == id
  {
    UnseenIdRepeats(yearIds, year, GetInitials(principalInvestigator));
  }

  /** An identifier the regex as written cannot match does not move the next sequence number. */
  lemma UnseenIdRepeats(yearIds: seq<string>, year: nat, initials: string)
    requires 1000 <= year <= 9999 && |initials| == 2
    requires NextSequence(AsWritten, yearIds) >= 100000 ||
             !IsUpperLetter(initials[0]) || !IsUpperLetter(initials[1])
    ensures var id := FormatId(year, NextSequence(AsWritten, yearIds), initials);
            NextSequence(AsWritten, yearIds + [id]) == NextSequence(AsWritten, yearIds)
  {
    var n := NextSequence(AsWritten, yearIds);
    var id := FormatId(year, n, initials);
    FormatIdAsWritten(year, n, initials);
    assert SequenceNumber(AsWritten, id).None?;
    MaxNumberSkips(AsWritten, yearIds, id);
  }

  /** An identifier the scan does not match leaves the maximum as it was. */
  lemma MaxNumberSkips(p: Pattern, ids: seq<string>, id: string)
    requires SequenceNumber(p, id).None?
    ensures MaxNumber(p, ids + [id]) == MaxNumber(p, ids)
  {
    var after := ids + [id];
    assert after[..|after| - 1] == ids;
  }

  // ---------------------------------------------------------------------
  // The uploads and the new record

  /** What the page keeps of a chosen `File`. */
  datatype FileInfo = FileInfo(name: string, mimeType: string, size: nat)

  /** The nine upload slots of the form's `files` object, in declaration order. */
  datatype Uploads = Uploads(
    protocolReview: Option<FileInfo>,
    endorsementLetter: Option<FileInfo>,
    minutesOfDefense: Option<FileInfo>,
    researchProposal: Option<FileInfo>,
    informedConsent: Option<FileInfo>,
    technicalReview: Option<FileInfo>,
    questionnaire: Option<FileInfo>,
    curriculumVitae: Option<FileInfo>,
    paymentProof: Option<FileInfo>)

  const NoUploads := Uploads(None, None, None, None, None, None, None, None, None)

  const UploadKeys: seq<string> := [
    "protocolReview", "endorsementLetter", "minutesOfDefense", "researchProposal",
    "informedConsent", "technicalReview", "questionnaire", "curriculumVitae", "paymentProof"]

  function UploadFiles(u: Uploads): seq<Option<FileInfo>> {
    [u.protocolReview, u.endorsementLetter, u.minutesOfDefense, u.researchProposal,
     u.informedConsent, u.technicalReview, u.questionnaire, u.curriculumVitae, u.paymentProof]
  }

  /** `Object.entries(formData.files)`: each key with its file, in declaration order. */
  function UploadEntries(u: Uploads): (entries: seq<(string, Option<FileInfo>)>)
    ensures |entries| == |UploadKeys| == 9
    ensures forall i :: 0 <= i < 9 ==> entries[i].0 == UploadKeys[i]
    ensures forall i, j :: 0 <= i < j < 9 ==> entries[i].0 != entries[j].0
  {
    seq(9, i requires 0 <= i < 9 => (UploadKeys[i], UploadFiles(u)[i]))
  }

  /** Where a file of application `id` is stored. */
  function StoragePath(id: string, fileName: string): string {
    "applications/" + id + "/" + fileName
  }

  /** The metadata object recorded for one uploaded file. */
  function Metadata(id: string, f: FileInfo): (m: FileMeta)
    ensures m.name == f.name && m.mimeType == f.mimeType && m.size == f.size
    ensures m.path == StoragePath(id, f.name)
  {
    FileMeta(f.name, f.mimeType, f.size, StoragePath(id, f.name))
  }

  /** The `filesData` reduce over upload results: null results skipped, later keys written over earlier ones. */
  function FilesOf(id: string, entries: seq<(string, Option<FileInfo>)>): map<string, FileMeta> {
    if entries == [] then map[]
    else
      var last := entries[|entries| - 1];
      var acc := FilesOf(id, entries[..|entries| - 1]);
      if last.1.Some? then acc[last.0 := Metadata(id, last.1.value)] else acc
  }

  /**
   * With distinct keys, the map holds exactly the keys whose file is
   * present, each with that file's metadata.
   */
  lemma {:induction false} FilesOfExact(id: string, entries: seq<(string, Option<FileInfo>)>)
    requires forall i, j :: 0 <= i < j < |entries| ==> entries[i].0 != entries[j].0
    ensures var m := FilesOf(id, entries);
            (forall i :: 0 <= i < |entries| ==> (entries[i].0 in m <==> entries[i].1.Some?)) &&
            (forall i :: 0 <= i < |entries| && entries[i].1.Some? ==>
               m[entries[i].0] == Metadata(id, entries[i].1.value)) &&
            (forall k :: k in m ==> exists i :: 0 <= i < |entries| && entries[i].0 == k)
  {
    if entries != [] {
      var front := entries[..|entries| - 1];
      FilesOfExact(id, front);
      assert forall i :: 0 <= i < |front| ==> front[i] == entries[i];
    }
  }

  /**
   * The `files` map of a submission holds exactly the upload slots that
   * have a file, each with the file's name, type and size and the path
   * `applications/{id}/{name}`.
   */
  lemma FilesDataExact(id: string, u: Uploads)
    ensures var m := FilesOf(id, UploadEntries(u));
            (forall i :: 0 <= i < 9 ==> (UploadKeys[i] in m <==> UploadFiles(u)[i].Some?)) &&
            (forall i :: 0 <= i < 9 && UploadFiles(u)[i].Some? ==>
               m[UploadKeys[i]] == Metadata(id, UploadFiles(u)[i].value)) &&
            (forall k :: k in m ==> k in UploadKeys)
  {
    var entries := UploadEntries(u);
    FilesOfExact(id, entries);
    forall k | k in FilesOf(id, entries)
      ensures k in UploadKeys
    {
      var i :| 0 <= i < |entries| && entries[i].0 == k;
      assert UploadKeys[i] == k;
    }
  }

  /** With no file chosen the map is empty. */
  lemma NoUploadsNoFiles(id: string)
    ensures FilesOf(id, UploadEntries(NoUploads)) == map[]
  {
    FilesDataExact(id, NoUploads);
  }

  /** The `files` map recorded for a submission with these uploads. */
  function SubmittedFiles(id: string, u: Uploads): map<string, FileMeta> {
    FilesOf(id, UploadEntries(u))
  }

  /** The `filesData` reduce, one upload result at a time. */
  method FilesData(id: string, u: Uploads) returns (filesData: map<string, FileMeta>)
    ensures filesData == SubmittedFiles(id, u)
  {
    var entries := UploadEntries(u);
    filesData := map[];
    for i := 0 to |entries|
      invariant filesData == FilesOf(id, entries[..i])
    {
      assert entries[..i + 1][..i] == entries[..i];
      var (key, file) := entries[i];
      if file.Some? {
        filesData := filesData[key := Metadata(id, file.value)];
      }
    }
    assert entries[..|entries|] == entries;
  }

  /** Some chosen file's upload fails: `Promise.all` then rejects and the whole submission fails. */
  predicate UploadFails(u: Uploads, failing: set<string>) {
    exists i :: 0 <= i < 9 && UploadFiles(u)[i].Some? && UploadKeys[i] in failing
  }

  /** The submission form's state. */
  datatype ApplicationForm = ApplicationForm(
    researchTitle: string,
    principalInvestigator: string,
    courseProgram: string,
    adviser: string,
    emailAddress: string,
    files: Uploads)

  const InitialForm := ApplicationForm("", "", "", "", "", NoUploads)

  /**
   * The record `setDoc` writes for a new submission; `now` is the store's
   * clock when it applies the write, which both `serverTimestamp()` fields
   * read.
   */
  function NewApplication(id: string, form: ApplicationForm, files: map<string, FileMeta>,
                          now: string, year: nat): Application {
    Application(id, form.researchTitle, form.principalInvestigator, form.courseProgram,
                form.adviser, form.emailAddress, files, "Pending",
                Some(EmptySlot), Some(EmptySlot), Some(EmptySlot), now, now, year)
  }

  /** The edit button is enabled only while the application is pending. */
  predicate CanEdit(app: Application) {
    app.status == "Pending"
  }

  /**
   * A new application keeps the form's fields, is pending and therefore
   * editable, and has three empty slots, so no reviewer is assigned to it.
   */
  lemma NewApplicationShape(id: string, form: ApplicationForm, files: map<string, FileMeta>,
                            now: string, year: nat)
    ensures var app := NewApplication(id, form, files, now, year);
            CanEdit(app) && app.status == "Pending" &&
            app.submissionDate == now && app.createdAt == now &&
            app.researchTitle == form.researchTitle &&
            app.principalInvestigator == form.principalInvestigator &&
            app.courseProgram == form.courseProgram && app.adviser == form.adviser &&
            app.emailAddress == form.emailAddress && app.files == files &&
            app.year == year && app.id == id &&
            forall k :: SlotOf(app, k) == Some(Slot("", "", "Pending"))
  {
    var app := NewApplication(id, form, files, now, year);
    forall k
      ensures SlotOf(app, k) == Some(Slot("", "", "Pending"))
    {
      match k
      case Reviewer1 =>
      case Reviewer2 =>
      case Reviewer3 =>
    }
  }

  /** Once a status other than `Pending` is set, editing is disabled. */
  lemma EditGate(app: Application, status: string)
    ensures CanEdit(app.(status := status)) <==> status == "Pending"
  {
  }

  /**
   * Under the corrected scan a submission never replaces an application of
   * the same year: the new identifier is none of theirs.
   */
  lemma SubmitNeverOverwrites(docs: map<string, Application>, snapshot: seq<string>,
                              principalInvestigator: string, year: nat)
    requires 1000 <= year <= 9999
    requires forall k :: k in snapshot <==> k in docs && docs[k].year == year
    ensures var id := DocumentId(AnyWidth, principalInvestigator, snapshot, year);
            forall k :: k in docs && docs[k].year == year ==> k != id
  {
    FreshIdNotInSnapshot(principalInvestigator, snapshot, year);
  }

  /** The `applications` collection, keyed by document id. */
  class ApplicationStore {
    var docs: map<string, Application>

    constructor()
      ensures docs == map[]
    {
      docs := map[];
    }
  }

  /** The submission page's state. */
  class UserDashboard {
    var formData: ApplicationForm
    var error: string
    var success: string
    var documentId: string
    var showModal: bool

    constructor()
      ensures formData == InitialForm && error == "" && success == ""
      ensures documentId == "" && !showModal
    {
      formData := InitialForm;
      error := "";
      success := "";
      documentId := "";
      showModal := false;
    }

    /**
     * `handleSubmit`. `p` is the identifier scan: `AsWritten` is the page's,
     * `AnyWidth` the corrected one. The snapshot is the ids of this year's
     * applications and `now` the store's clock at the write; `scanFails`,
     * `failingUploads` and `writeFails` say which of the store's and the
     * file store's calls reject. Any rejection leaves the error message and
     * nothing else; otherwise the record is written under the new
     * identifier and the form is reset.
     */
    method HandleSubmit(p: Pattern, store: ApplicationStore, snapshot: seq<string>, year: nat, now: string,
                        scanFails: bool, failingUploads: set<string>, writeFails: bool)
      modifies this, store
      ensures scanFails || UploadFails(old(formData).files, failingUploads) || writeFails ==>
                error == "Failed to submit application" && success == "" &&
                formData == old(formData) && documentId == old(documentId) &&
                showModal == old(showModal) && store.docs == old(store.docs)
      ensures !(scanFails || UploadFails(old(formData).files, failingUploads) || writeFails) ==>
                error == "" && success == "Application submitted successfully" &&
                formData == InitialForm && showModal &&
                documentId == DocumentId(p, old(formData).principalInvestigator, snapshot, year)
      ensures !(scanFails || UploadFails(old(formData).files, failingUploads) || writeFails) ==>
                var form := old(formData);
                var id := DocumentId(p, form.principalInvestigator, snapshot, year);
                store.docs == old(store.docs)[id := NewApplication(id, form, SubmittedFiles(id, form.files), now, year)]
    {
      error := "";
      success := "";
      if scanFails {
        error := "Failed to submit application";
        return;
      }
      var id := GenerateDocumentId(p, formData.principalInvestigator, snapshot, year);
      if UploadFails(formData.files, failingUploads) {
        error := "Failed to submit application";
        return;
      }
      var files := FilesData(id, formData.files);
      if writeFails {
        error := "Failed to submit application";
        return;
      }
      Commit(store, id, NewApplication(id, formData, files, now, year));
    }

    /** The successful end of `handleSubmit`: the write, the success message, the modal and the reset. */
    method Commit(store: ApplicationStore, id: string, app: Application)
      requires error == ""
      modifies this, store
      ensures store.docs == old(store.docs)[id := app]
      ensures error == "" && success == "Application submitted successfully" &&
              formData == InitialForm && showModal && documentId == id
    {
      store.docs := store.docs[id := app];
      success := "Application submitted successfully";
      documentId := id;
      showModal := true;
      formData := InitialForm;
    }
  }

  /** One submission of `form` in which no call rejects. */
  method SubmitClean(dash: UserDashboard, store: ApplicationStore, p: Pattern, snapshot: seq<string>,
                     year: nat, at: string, form: ApplicationForm)
    modifies dash, store
    ensures var id := DocumentId(p, form.principalInvestigator, snapshot, year);
            dash.documentId == id && dash.success == "Application submitted successfully" &&
            store.docs == old(store.docs)[id := NewApplication(id, form, SubmittedFiles(id, form.files), at, year)]
  {
    assert !UploadFails(form.files, {});
    dash.formData := form;
    dash.HandleSubmit(p, store, snapshot, year, at, false, {}, false);
  }

  /**
   * The finding end to end, on the page as written. Two applications from
   * the same investigator are submitted in the same year, the second scan
   * seeing the first's identifier. When that identifier is invisible to the
   * scan (initials that are not two capitals, as for `Maria Santos (PI)` by
   * `InitialsWithParenthesis`, or a number of six digits or more), both are
   * given the same identifier and the second `setDoc` replaces the first
   * application.
   */
  method SameNameOverwrites(dash: UserDashboard, store: ApplicationStore, snapshot: seq<string>,
                            year: nat, firstAt: string, secondAt: string,
                            first: ApplicationForm, second: ApplicationForm)
    returns (firstId: string, secondId: string)
    requires 1000 <= year <= 9999
    requires second.principalInvestigator == first.principalInvestigator
    requires var initials := GetInitials(first.principalInvestigator);
             NextSequence(AsWritten, snapshot) >= 100000 ||
             !IsUpperLetter(initials[0]) || !IsUpperLetter(initials[1])
    modifies dash, store
    ensures firstId == secondId && dash.documentId == secondId
    ensures dash.success == "Application submitted successfully"
    ensures store.docs ==
              old(store.docs)[firstId := NewApplication(firstId, second, SubmittedFiles(firstId, second.files), secondAt, year)]
  {
    AsWrittenRegeneratesId(first.principalInvestigator, snapshot, year);
    ghost var before := store.docs;
    SubmitClean(dash, store, AsWritten, snapshot, year, firstAt, first);
    firstId := dash.documentId;
    ghost var replaced := store.docs[firstId];
    SubmitClean(dash, store, AsWritten, snapshot + [firstId], year, secondAt, second);
    secondId := dash.documentId;
    assert secondId == firstId;
    UpdateTwice(before, firstId, replaced, store.docs[firstId]);
  }

  /** A second `setDoc` under the same id leaves no trace of the first. */
  lemma UpdateTwice(docs: map<string, Application>, id: string, a: Application, b: Application)
    ensures docs[id := a][id := b] == docs[id := b]
  {
  }
}
