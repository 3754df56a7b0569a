/** The upload extension allow-list of app/services/file_service.py, over the
    `ALLOWED_EXTENSIONS` setting of app/config.py. */
module FileService {
  import opened Wrappers

  const ALLOWED_EXTENSIONS: set<string> := {"pptx", "docx", "xlsx"}

  /** Python's `str.lower()` on one character, for the ASCII letters. */
  function LowerChar(c: char): char
  {
    if 'A' <= c <= 'Z' then (c as int + 32) as char else c
  }

  /** No upper-case ASCII letter occurs in `s`. */
  predicate IsLower(s: string)
  {
    forall i :: 0 <= i < |s| ==> !('A' <= s[i] <= 'Z')
  }

  /** Python's `str.lower()`. */
  function Lower(s: string): (r: string)
    ensures |r| == |s|
    ensures forall i :: 0 <= i < |s| ==> r[i] == LowerChar(s[i])
  {
    if s == [] then [] else [LowerChar(s[0])] + Lower(s[1..])
  }

  /** Position of the final `.` in `s`, if there is one. */
  function LastDot(s: string): (r: Option<nat>)
    ensures r.None? <==> '.' !in s
    ensures r.Some? ==> r.value < |s| && s[r.value] == '.' && '.' !in s[r.value + 1..]
  {
    if s == [] then None
    else if s[|s| - 1] == '.' then Some(|s| - 1)
    else
      var r := LastDot(s[..|s| - 1]);
      assert r.Some? ==> s[r.value + 1..] == s[..|s| - 1][r.value + 1..] + [s[|s| - 1]];
      assert s == s[..|s| - 1] + [s[|s| - 1]];
      r
  }

  /** `s.rsplit('.', 1)`: the text before and after the final dot, or `[s]`
      when `s` has no dot. */
  function RSplitOnce(s: string): (parts: seq<string>)
    ensures 1 <= |parts| <= 2
    ensures |parts| == 1 <==> '.' !in s
    ensures |parts| == 1 ==> parts[0] == s
    ensures |parts| == 2 ==> s == parts[0] + "." + parts[1] && '.' !in parts[1]
  {
    match LastDot(s)
    case None => [s]
    case Some(k) =>
      assert s == s[..k] + "." + s[k + 1..];
      [s[..k], s[k + 1..]]
  }

  /** `allowed_file`: the name has a dot, and the text after the final dot,
      lower-cased, is on the allow-list. */
  function AllowedFile(filename: string): (ok: bool)
    ensures ok ==> '.' in filename
    ensures ok ==> GetFileExtension(filename).Some? && GetFileExtension(filename).value in ALLOWED_EXTENSIONS
  {
    '.' in filename && Lower(RSplitOnce(filename)[1]) in ALLOWED_EXTENSIONS
  }

  /** `get_file_extension`: the text after the final dot, lower-cased.  On a
      name without a dot, `rsplit` yields one part and indexing it raises
      `IndexError`, which is `None` here. */
  function GetFileExtension(filename: string): (ext: Option<string>)
    ensures ext.None? <==> '.' !in filename
    ensures ext.Some? ==> '.' !in ext.value && IsLower(ext.value)
  {
    var parts := RSplitOnce(filename);
    if |parts| < 2 then None
    else
      var e := Lower(parts[1]);
      assert forall i :: 0 <= i < |e| ==> e[i] == LowerChar(parts[1][i]) && parts[1][i] != '.';
      Some(e)
  }

  // ---------------------------------------------------------------------
  // Properties

  /** The final dot is the one the contract of `LastDot` describes: any dot
      with no dot after it is that one. */
  lemma LastDotAt(s: string, k: nat)
    requires k < |s| && s[k] == '.' && '.' !in s[k + 1..]
    ensures LastDot(s) == Some(k)
  {
    var r := LastDot(s);
    assert s[k] == '.';
  }

  /** Splitting a name built as prefix, dot, dot-free suffix gives back the
      prefix and the suffix. */
  lemma RSplitOnceOfJoin(p: string, e: string)
    requires '.' !in e
    ensures RSplitOnce(p + "." + e) == [p, e]
  {
    var s := p + "." + e;
    assert s[|p|] == '.';
    assert s[|p| + 1..] == e;
    LastDotAt(s, |p|);
    assert s[..|p|] == p;
  }

  /** Only the final dot counts: `p.e` is accepted exactly when `e`,
      lower-cased, is an allowed extension, whatever dots `p` holds. */
  lemma AllowedFileOfJoin(p: string, e: string)
    requires '.' !in e
    ensures AllowedFile(p + "." + e) <==> Lower(e) in ALLOWED_EXTENSIONS
  {
    RSplitOnceOfJoin(p, e);
    assert (p + "." + e)[|p|] == '.';
  }

  /** Together with `AllowedFileOfJoin`: a name is accepted exactly when it
      is some prefix, a dot and a dot-free suffix on the allow-list. */
  lemma AllowedFileSplits(f: string)
    requires AllowedFile(f)
    ensures var parts := RSplitOnce(f);
      |parts| == 2 && f == parts[0] + "." + parts[1] && '.' !in parts[1] && Lower(parts[1]) in ALLOWED_EXTENSIONS
  {
  }

  /** A name without a dot is never accepted. */
  lemma NoDotNotAllowed(f: string)
    requires '.' !in f
    ensures !AllowedFile(f)
  {
  }

  /** A lower-case, dot-free final suffix off the list is rejected. */
  lemma SuffixOffListRejected(p: string, e: string)
    requires '.' !in e && IsLower(e) && e !in ALLOWED_EXTENSIONS
    ensures !AllowedFile(p + "." + e)
  {
    AllowedFileOfJoin(p, e);
    LowerOfLower(e);
  }

  /** The extension of `p.e`, for a dot-free `e`, is `e` lower-cased, whatever dots
      `p` has; for a lower-case `e` this is the round trip back to `e`. */
  lemma ExtensionOfJoin(p: string, e: string)
    requires '.' !in e
    ensures GetFileExtension(p + "." + e) == Some(Lower(e))
  {
    RSplitOnceOfJoin(p, e);
  }

  lemma LowerOfLower(s: string)
    requires IsLower(s)
    ensures Lower(s) == s
  {
    assert forall i :: 0 <= i < |s| ==> Lower(s)[i] == s[i];
  }

  /** Lower-casing turns no character into a dot. */
  lemma NoDotInLower(s: string)
    requires '.' !in s
    ensures '.' !in Lower(s)
  {
    var l := Lower(s);
    assert forall i :: 0 <= i < |l| ==> l[i] == LowerChar(s[i]) && s[i] != '.';
  }

  /** Lower-casing distributes over concatenation. */
  lemma {:induction false} LowerOfConcat(a: string, b: string)
    ensures Lower(a + b) == Lower(a) + Lower(b)
  {
    if a == [] {
      assert a + b == b;
    } else {
      assert (a + b)[1..] == a[1..] + b;
      LowerOfConcat(a[1..], b);
    }
  }

  lemma LowerOfJoin(p: string, e: string)
    ensures Lower(p + "." + e) == Lower(p) + "." + Lower(e)
  {
    LowerOfConcat(p, ".");
    LowerOfConcat(p + ".", e);
  }

  lemma LowerIdempotent(s: string)
    ensures Lower(Lower(s)) == Lower(s)
  {
    LowerOfLower(Lower(s));
  }

  /** Lower-casing a name first does not change its verdict. */
  lemma AllowedFileOfLower(f: string)
    ensures AllowedFile(Lower(f)) == AllowedFile(f)
  {
    var parts := RSplitOnce(f);
    if |parts| == 1 {
      NoDotInLower(f);
    } else {
      var p, e := parts[0], parts[1];
      LowerOfJoin(p, e);
      NoDotInLower(e);
      AllowedFileOfJoin(p, e);
      AllowedFileOfJoin(Lower(p), Lower(e));
      LowerIdempotent(e);
    }
  }

  /** The check ignores letter case: two names that agree once lower-cased
      get the same verdict. */
  lemma AllowedFileIgnoresCase(f: string, g: string)
    requires Lower(f) == Lower(g)
    ensures AllowedFile(f) == AllowedFile(g)
  {
    AllowedFileOfLower(f);
    AllowedFileOfLower(g);
  }
}

/** The three names that show that only the final dot counts. */
module FileServiceExamples {
  import opened FileService

  /** `a.txt.docx` is accepted. */
  lemma InnerDotIgnored(f: string)
    requires f == "a.txt.docx"
    ensures AllowedFile(f)
  {
    var p, e := "a.txt", "docx";
    assert f == p + "." + e;
    AllowedFileOfJoin(p, e);
    LowerOfLower(e);
  }

  /** `a.docx.txt` is rejected. */
  lemma AllowedSuffixBeforeFinalDotIgnored(f: string)
    requires f == "a.docx.txt"
    ensures !AllowedFile(f)
  {
    var p, e := "a.docx", "txt";
    assert f == p + "." + e;
    assert e[0] == 't';
    assert e !in ALLOWED_EXTENSIONS;
    SuffixOffListRejected(p, e);
  }

  /** `report.` is rejected: its suffix is empty. */
  lemma EmptySuffixRejected(f: string)
    requires f == "report."
    ensures !AllowedFile(f)
  {
    var p, e := "report", "";
    assert f == p + "." + e;
    AllowedFileOfJoin(p, e);
  }
}
