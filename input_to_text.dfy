/**
 * The CV text normaliser (`clean_cv_text`) and the file-type dispatch in front of
 * it (`extract_text`). Cleaning is a chain of rewrites: lower-case, squeeze
 * newline runs, collapse space/tab runs into one space, squeeze newline runs
 * again, delete "page N of M" footers, turn bullets and long dashes into spaces,
 * strip. The document readers are parameters.
 */
module InputToText {
  import opened Wrappers
  import opened Text

  predicate IsDigit(c: char) { '0' <= c <= '9' }

  /** A character of the class `[ \t]`. */
  predicate IsBlankChar(c: char) { c == ' ' || c == '\t' }

  /** A character of the class `[•●▪■–—]`. */
  predicate IsBullet(c: char) {
    c == '•' || c == '●' || c == '▪' || c == '■' || c == '–' || c == '—'
  }

  /** No two consecutive newlines. */
  predicate NoDoubleNewline(s: string) {
    forall i :: 0 <= i < |s| - 1 ==> !(s[i] == '\n' && s[i + 1] == '\n')
  }

  /** `re.sub(r'\n+', '\n', s)`: every run of newlines becomes one newline. */
  function SqueezeNewlines(s: string): (r: string)
    ensures |r| <= |s|
    ensures forall i :: 0 <= i < |r| ==> r[i] in s
    ensures NoDoubleNewline(r)
    ensures r == [] <==> s == []
    ensures s != [] ==> r[0] == s[0] || (s[0] == '\n' && r[0] == '\n')
    decreases |s|
  {
    if s == [] then []
    else if |s| > 1 && s[0] == '\n' && s[1] == '\n' then SqueezeNewlines(s[1..])
    else
      var rest := SqueezeNewlines(s[1..]);
      assert forall i :: 0 <= i < |rest| ==> rest[i] in s by {
        forall i | 0 <= i < |rest| ensures rest[i] in s { assert rest[i] in s[1..]; }
      }
      [s[0]] + rest
  }

  /** A string with no newline run is its own squeeze, so the second `\n{2,}` pass changes nothing. */
  lemma {:induction false} SqueezeNewlinesUnchanged(s: string)
    requires NoDoubleNewline(s)
    ensures SqueezeNewlines(s) == s
    decreases |s|
  {
    if s != [] {
      SqueezeNewlinesUnchanged(s[1..]);
    }
  }

  /** `re.sub(r"[ \t]+", " ", s)`: every run of spaces and tabs becomes one space. */
  function CollapseBlanks(s: string): (r: string)
    ensures |r| <= |s|
    ensures forall i :: 0 <= i < |r| ==> r[i] == ' ' || (r[i] in s && !IsBlankChar(r[i]))
    ensures r == [] <==> s == []
    ensures s != [] ==> (r[0] == ' ' <==> IsBlankChar(s[0])) && (!IsBlankChar(s[0]) ==> r[0] == s[0])
    decreases |s|
  {
    if s == [] then []
    else if |s| > 1 && IsBlankChar(s[0]) && IsBlankChar(s[1]) then CollapseBlanks(s[1..])
    else
      var rest := CollapseBlanks(s[1..]);
      assert forall i :: 0 <= i < |rest| ==> rest[i] == ' ' || (rest[i] in s && !IsBlankChar(rest[i])) by {
        forall i | 0 <= i < |rest| ensures rest[i] == ' ' || (rest[i] in s && !IsBlankChar(rest[i])) {
          if rest[i] != ' ' { assert rest[i] in s[1..]; }
        }
      }
      [if IsBlankChar(s[0]) then ' ' else s[0]] + rest
  }

  /** Text with no tab and no two blanks in a row is not changed by the collapse. */
  lemma {:induction false} CollapseBlanksUnchanged(s: string)
    requires forall i :: 0 <= i < |s| ==> s[i] != '\t'
    requires forall i :: 0 <= i < |s| - 1 ==> !(s[i] == ' ' && s[i + 1] == ' ')
    ensures CollapseBlanks(s) == s
    decreases |s|
  {
    if s != [] {
      var t := s[1..];
      assert forall i :: 0 <= i < |t| ==> t[i] == s[i + 1];
      CollapseBlanksUnchanged(t);
    }
  }

  /** Collapsing spaces and tabs never brings two newlines together. */
  lemma {:induction false} CollapseBlanksKeepsNoDoubleNewline(s: string)
    requires NoDoubleNewline(s)
    ensures NoDoubleNewline(CollapseBlanks(s))
    decreases |s|
  {
    if s != [] {
      assert NoDoubleNewline(s[1..]) by {
        forall i | 0 <= i < |s[1..]| - 1 ensures !(s[1..][i] == '\n' && s[1..][i + 1] == '\n') {
          assert s[1..][i] == s[i + 1] && s[1..][i + 1] == s[i + 2];
        }
      }
      CollapseBlanksKeepsNoDoubleNewline(s[1..]);
    }
  }

  /** The length of the run of ASCII digits at the start of `s` (the greedy `\d+`). */
  function DigitRun(s: string): (n: nat)
    ensures n <= |s|
    ensures forall i :: 0 <= i < n ==> IsDigit(s[i])
    ensures n < |s| ==> !IsDigit(s[n])
    decreases |s|
  {
    if s != [] && IsDigit(s[0]) then 1 + DigitRun(s[1..]) else 0
  }

  /**
   * The length of the match of `page \d+ of \d+` at the start of `s`, if any. The
   * digit runs cannot give back a digit to the literal text after them, so the
   * greedy match is the only one.
   */
  function PageMarkAt(s: string): (m: Option<nat>)
    ensures m.Some? ==> 11 <= m.value <= |s| && StartsWith(s, "page ")
  {
    if !StartsWith(s, "page ") then None
    else
      var d1 := DigitRun(s[5..]);
      var rest := s[5 + d1..];
      if d1 == 0 || !StartsWith(rest, " of ") then None
      else
        var d2 := DigitRun(rest[4..]);
        if d2 == 0 then None else Some(5 + d1 + 4 + d2)
  }

  /** `re.sub(r'page \d+ of \d+', '', s)`: matches are found left to right and deleted. */
  function RemovePageMarks(s: string): (r: string)
    ensures |r| <= |s|
    ensures forall i :: 0 <= i < |r| ==> r[i] in s
    decreases |s|
  {
    if s == [] then []
    else match PageMarkAt(s)
      case Some(n) =>
        var rest := RemovePageMarks(s[n..]);
        assert forall i :: 0 <= i < |rest| ==> rest[i] in s by {
          forall i | 0 <= i < |rest| ensures rest[i] in s { assert rest[i] in s[n..]; }
        }
        rest
      case None =>
        var rest := RemovePageMarks(s[1..]);
        assert forall i :: 0 <= i < |rest| ==> rest[i] in s by {
          forall i | 0 <= i < |rest| ensures rest[i] in s { assert rest[i] in s[1..]; }
        }
        [s[0]] + rest
  }

  /** `re.sub(r'[•●▪■–—]', ' ', s)`. */
  function ReplaceBullets(s: string): (r: string)
    ensures |r| == |s|
    ensures forall i :: 0 <= i < |s| ==> r[i] == (if IsBullet(s[i]) then ' ' else s[i])
  {
    seq(|s|, i requires 0 <= i < |s| => if IsBullet(s[i]) then ' ' else s[i])
  }

  /** What the cleaner promises about its output. */
  predicate IsCleanText(s: string) {
    HasNoUpper(s) &&
    (forall i :: 0 <= i < |s| ==> s[i] != '\t' && !IsBullet(s[i])) &&
    (s == [] || (!IsSpace(s[0]) && !IsSpace(s[|s| - 1])))
  }

  /** Neither upper-case, nor a tab, nor a bullet. */
  predicate IsCleanChar(c: char) { !IsUpper(c) && c != '\t' && !IsBullet(c) }

  predicate AllClean(s: string) { forall i :: 0 <= i < |s| ==> IsCleanChar(s[i]) }

  /** Lower-casing, then squeezing and collapsing, leaves neither upper case nor tabs. */
  lemma FirstStepsNoUpperNoTab(text: string)
    ensures forall i :: 0 <= i < |SqueezeNewlines(CollapseBlanks(SqueezeNewlines(Lower(text))))| ==>
      !IsUpper(SqueezeNewlines(CollapseBlanks(SqueezeNewlines(Lower(text))))[i]) &&
      SqueezeNewlines(CollapseBlanks(SqueezeNewlines(Lower(text))))[i] != '\t'
  {
    var t1 := Lower(text);
    var t2 := SqueezeNewlines(t1);
    var t3 := CollapseBlanks(t2);
    var t4 := SqueezeNewlines(t3);
    forall i | 0 <= i < |t4| ensures !IsUpper(t4[i]) && t4[i] != '\t' {
      assert t4[i] in t3;
      var j :| 0 <= j < |t3| && t3[j] == t4[i];
      if t3[j] != ' ' {
        assert t3[j] in t2;
        var k :| 0 <= k < |t2| && t2[k] == t3[j];
        assert t2[k] in t1;
      }
    }
  }

  /** Deleting footers and replacing bullets leaves only clean characters. */
  lemma MiddleStepsClean(t4: string)
    requires forall i :: 0 <= i < |t4| ==> !IsUpper(t4[i]) && t4[i] != '\t'
    ensures AllClean(ReplaceBullets(RemovePageMarks(t4)))
  {
    var t5 := RemovePageMarks(t4);
    var t6 := ReplaceBullets(t5);
    forall i | 0 <= i < |t6| ensures IsCleanChar(t6[i]) {
      assert t5[i] in t4;
      var j :| 0 <= j < |t4| && t4[j] == t5[i];
      assert !IsUpper(t5[i]) && t5[i] != '\t';
      assert t6[i] == (if IsBullet(t5[i]) then ' ' else t5[i]);
    }
  }

  /** Stripping clean characters gives clean text. */
  lemma StripClean(t6: string)
    requires AllClean(t6)
    ensures IsCleanText(Strip(t6))
  {
    StripIsSlice(t6);
    var r := Strip(t6);
    forall i | 0 <= i < |r| ensures IsCleanChar(r[i]) {
      var j :| 0 <= j < |t6| && t6[j] == r[i];
    }
  }

  /** `clean_cv_text`. */
  function CleanCvText(text: string): (r: string)
    ensures IsCleanText(r)
  {
    var t1 := Lower(text);
    var t2 := SqueezeNewlines(t1);
    var t3 := CollapseBlanks(t2);
    var t4 := SqueezeNewlines(t3);
    FirstStepsNoUpperNoTab(text);
    var t5 := RemovePageMarks(t4);
    var t6 := ReplaceBullets(t5);
    MiddleStepsClean(t4);
    StripClean(t6);
    Strip(t6)
  }

  /** The second newline pass never has anything left to do. */
  lemma SecondNewlinePassIsNoOp(text: string)
    ensures SqueezeNewlines(CollapseBlanks(SqueezeNewlines(Lower(text))))
      == CollapseBlanks(SqueezeNewlines(Lower(text)))
  {
    CollapseBlanksKeepsNoDoubleNewline(SqueezeNewlines(Lower(text)));
    SqueezeNewlinesUnchanged(CollapseBlanks(SqueezeNewlines(Lower(text))));
  }

  lemma PageFooterIsMark()
    ensures PageMarkAt("page 3 of 4") == Some(11)
  {
    var s := "page 3 of 4";
    assert StartsWith(s, "page ");
    assert s[5..] == "3 of 4" && DigitRun("3 of 4") == 1 by { assert "3 of 4"[1..] == " of 4"; }
    assert s[6..] == " of 4" && StartsWith(" of 4", " of ");
    assert s[6..][4..] == "4" && DigitRun("4") == 1 by { assert "4"[1..] == []; }
  }

  lemma FooterLowered()
    ensures Lower("Page 3 of 4") == "page 3 of 4"
  {
  }

  lemma FooterHasNoRuns()
    ensures NoDoubleNewline("page 3 of 4")
    ensures forall i :: 0 <= i < |"page 3 of 4"| ==> "page 3 of 4"[i] != '\t'
    ensures forall i :: 0 <= i < |"page 3 of 4"| - 1 ==> !("page 3 of 4"[i] == ' ' && "page 3 of 4"[i + 1] == ' ')
  {
  }

  /** A page footer on its own cleans to nothing. */
  lemma PageFooterCleansToEmpty()
    ensures CleanCvText("Page 3 of 4") == ""
  {
    var t1 := "page 3 of 4";
    FooterLowered();
    FooterHasNoRuns();
    SqueezeNewlinesUnchanged(t1);
    CollapseBlanksUnchanged(t1);
    PageFooterIsMark();
    assert RemovePageMarks(t1) == RemovePageMarks(t1[11..]);
    assert t1[11..] == [];
  }

  /** Whether `s[lo..hi]` holds a character other than `c`. */
  predicate HasOtherThan(s: string, lo: int, hi: int, c: char)
    requires 0 <= lo <= hi <= |s|
  {
    exists i :: lo <= i < hi && s[i] != c
  }

  /**
   * `os.path.splitext(p)[1]` on POSIX paths: from the last dot of the last path
   * component to the end, provided the component has something other than dots
   * before that dot; otherwise "".
   */
  function SplitExt(p: string): (ext: string)
    ensures ext == [] || (ext[0] == '.' && '/' !in ext)
    ensures ext != [] ==> |ext| <= |p| && ext == p[|p| - |ext|..]
  {
    var sepIndex := LastIndexOf(p, '/');
    var dotIndex := LastIndexOf(p, '.');
    if dotIndex > sepIndex && HasOtherThan(p, sepIndex + 1, dotIndex, '.') then p[dotIndex..] else []
  }

  /**
   * The extension read directly off the path: `d` is the last dot, no '/' follows it, and
   * some character other than a dot precedes it within the last path component.
   */
  predicate ExtensionAt(p: string, d: int) {
    0 <= d < |p| && p[d] == '.' &&
    (forall i :: d < i < |p| ==> p[i] != '.' && p[i] != '/') &&
    exists j :: 0 <= j < d && p[j] != '.' && forall k :: j <= k < d ==> p[k] != '/'
  }

  /** `SplitExt` finds an extension exactly when the path has one, and then it is that suffix. */
  lemma SplitExtMeansExtension(p: string)
    ensures SplitExt(p) != [] <==> exists d :: ExtensionAt(p, d)
    ensures forall d :: ExtensionAt(p, d) ==> SplitExt(p) == p[d..]
  {
    var sepIndex := LastIndexOf(p, '/');
    var dotIndex := LastIndexOf(p, '.');
    if SplitExt(p) != [] {
      var j :| sepIndex + 1 <= j < dotIndex && p[j] != '.';
      assert forall k :: j <= k < dotIndex ==> p[k] != '/';
      assert ExtensionAt(p, dotIndex);
    }
    forall d | ExtensionAt(p, d)
      ensures SplitExt(p) == p[d..]
    {
      assert dotIndex == d;
      var j :| 0 <= j < d && p[j] != '.' && forall k :: j <= k < d ==> p[k] != '/';
      assert sepIndex < j;
      assert HasOtherThan(p, sepIndex + 1, dotIndex, '.');
    }
  }

  /** A dot file has no extension; the last of several dots starts it; case is kept. */
  lemma SplitExtExamples()
    ensures SplitExt("cv/.bashrc") == []
    ensures SplitExt("cv.tar.gz") == ".gz"
    ensures SplitExt("CV.PDF") == ".PDF"
  {
    var dotfile, archive, upper := "cv/.bashrc", "cv.tar.gz", "CV.PDF";
    assert dotfile[2] == '/' && forall i :: 2 < i < |dotfile| ==> dotfile[i] != '/';
    assert dotfile[3] == '.' && forall i :: 3 < i < |dotfile| ==> dotfile[i] != '.';
    assert LastIndexOf(dotfile, '/') == 2 && LastIndexOf(dotfile, '.') == 3;
    assert forall i :: 0 <= i < |archive| ==> archive[i] != '/';
    assert archive[6] == '.' && forall i :: 6 < i < |archive| ==> archive[i] != '.';
    assert LastIndexOf(archive, '/') == -1 && LastIndexOf(archive, '.') == 6;
    assert HasOtherThan(archive, 0, 6, '.') by { assert archive[0] != '.'; }
    assert archive[6..] == ".gz";
    assert forall i :: 0 <= i < |upper| ==> upper[i] != '/';
    assert upper[2] == '.' && forall i :: 2 < i < |upper| ==> upper[i] != '.';
    assert LastIndexOf(upper, '/') == -1 && LastIndexOf(upper, '.') == 2;
    assert HasOtherThan(upper, 0, 2, '.') by { assert upper[0] != '.'; }
    assert upper[2..] == ".PDF";
  }

  datatype FileKind = Docx | Pdf | Txt

  /** The failure of `extract_text`: an unsupported extension (ValueError) or a reader's error. */
  datatype ExtractError = Unsupported(ext: string) | ReadFailed(message: string)

  /** The extension dispatch: lower-cased, and only three are recognised. */
  function KindOf(ext: string): (k: Option<FileKind>)
    ensures k == Some(Docx) <==> ext == ".docx"
    ensures k == Some(Pdf) <==> ext == ".pdf"
    ensures k == Some(Txt) <==> ext == ".txt"
  {
    if ext == ".docx" then Some(Docx) else if ext == ".pdf" then Some(Pdf) else if ext == ".txt" then Some(Txt) else None
  }

  /** `extract_text`: read the file with the reader for its extension and clean the text. */
  function ExtractText(filepath: string, read: (FileKind, string) -> Result<string, string>): (r: Result<string, ExtractError>)
    ensures r.Success? ==> IsCleanText(r.value)
    ensures r.Failure? && r.error.Unsupported? <==> KindOf(Lower(SplitExt(filepath))).None?
    ensures r.Failure? && r.error.Unsupported? ==> r.error.ext == Lower(SplitExt(filepath))
    ensures KindOf(Lower(SplitExt(filepath))).Some? ==>
      match read(KindOf(Lower(SplitExt(filepath))).value, filepath)
      case Success(raw) => r == Success(CleanCvText(raw))
      case Failure(e) => r == Failure(ReadFailed(e))
  {
    var ext := Lower(SplitExt(filepath));
    match KindOf(ext)
    case None => Failure(Unsupported(ext))
    case Some(kind) =>
      match read(kind, filepath)
      case Success(raw) => Success(CleanCvText(raw))
      case Failure(e) => Failure(ReadFailed(e))
  }
}
