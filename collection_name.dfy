/** The derivation of a vector-store collection name from a PDF file name
    (`sanitize_collection_name` in vector_database.py), with the two
    `os.path` helpers it depends on. */
module CollectionName {

  /** Chroma's limit on the length of a collection name, applied by the cut. */
  const MaxNameLength: nat := 63

  /** Index of the last occurrence of `c` in `s`, or -1 (Python's `rfind`). */
  function LastIndexOf(s: string, c: char): (r: int)
    ensures -1 <= r < |s|
    ensures r >= 0 ==> s[r] == c
    ensures forall k :: r < k < |s| ==> s[k] != c
  {
    if s == [] then -1
    else if s[|s| - 1] == c then |s| - 1
    else LastIndexOf(s[..|s| - 1], c)
  }

  /** The last `c` is the one position holding `c` with no `c` after it
      (-1 when there is none). */
  lemma LastIndexOfIs(s: string, c: char, j: int)
    requires -1 <= j < |s|
    requires j >= 0 ==> s[j] == c
    requires forall k :: j < k < |s| ==> s[k] != c
    ensures LastIndexOf(s, c) == j
  {
  }

  /** `os.path.basename` on POSIX: everything after the last '/'. */
  function Basename(p: string): (r: string)
    ensures '/' !in r
    ensures |r| <= |p| && r == p[|p| - |r|..]
    ensures |r| < |p| ==> p[|p| - |r| - 1] == '/'
  {
    p[LastIndexOf(p, '/') + 1..]
  }

  predicate OnlyDots(s: string) { forall k :: 0 <= k < |s| ==> s[k] == '.' }

  /** Cutting `p` at a '.' after its last '/' keeps that '/' the last one. */
  lemma CutBeforeDot(p: string, sep: int, dot: int)
    requires -1 <= sep < dot < |p| && sep == LastIndexOf(p, '/')
    ensures LastIndexOf(p[..dot], '/') == sep
    ensures p[..dot][sep + 1..] == p[sep + 1..dot]
  {
    var r := p[..dot];
    assert forall k :: 0 <= k < dot ==> r[k] == p[k];
    LastIndexOfIs(r, '/', sep);
  }

  /** The root half of POSIX `os.path.splitext(p)`: the last '.' of the last
      path component starts the extension, unless every character before
      it in that component is a '.' too (so ".pdf" has no extension). */
  function SplitExtRoot(p: string): (r: string)
    ensures |r| <= |p| && r == p[..|r|]
    ensures r != p ==>
      && p[|r|] == '.'
      && (forall k :: |r| < k < |p| ==> p[k] != '.' && p[k] != '/')
      && !OnlyDots(r[LastIndexOf(r, '/') + 1..])
    ensures r == p ==>
      var sep, dot := LastIndexOf(p, '/'), LastIndexOf(p, '.');
      dot <= sep || OnlyDots(p[sep + 1..dot])
  {
    var sep, dot := LastIndexOf(p, '/'), LastIndexOf(p, '.');
    if dot > sep && !OnlyDots(p[sep + 1..dot]) then
      var r := p[..dot];
      CutBeforeDot(p, sep, dot);
      assert r[LastIndexOf(r, '/') + 1..] == p[sep + 1..dot];
      assert |r| < |p|;
      r
    else p
  }

  predicate IsAsciiUpper(c: char) { 'A' <= c <= 'Z' }

  function LowerChar(c: char): char
  {
    if IsAsciiUpper(c) then (c as int + 32) as char else c
  }

  /** `str.lower()`, restricted to the ASCII letters. */
  function Lower(s: string): (r: string)
    ensures |r| == |s|
    ensures forall k :: 0 <= k < |r| ==> !IsAsciiUpper(r[k])
    ensures forall k :: 0 <= k < |s| && !IsAsciiUpper(s[k]) ==> r[k] == s[k]
    ensures forall k :: 0 <= k < |s| && IsAsciiUpper(s[k]) ==> r[k] as int == s[k] as int + 32
  {
    seq(|s|, i requires 0 <= i < |s| => LowerChar(s[i]))
  }

  /** The character class `[a-z0-9._-]` of a Chroma collection name. */
  predicate Allowed(c: char)
  {
    ('a' <= c <= 'z') || ('0' <= c <= '9') || c == '.' || c == '_' || c == '-'
  }

  predicate AllAllowed(s: string) { forall k :: 0 <= k < |s| ==> Allowed(s[k]) }

  /** `re.sub(r'[^a-z0-9._-]', '-', s)`: one '-' for each disallowed
      character, so runs are not collapsed and the length is kept. */
  function Substitute(s: string): (r: string)
    ensures |r| == |s|
    ensures AllAllowed(r)
    ensures forall k :: 0 <= k < |s| && Allowed(s[k]) ==> r[k] == s[k]
    ensures forall k :: 0 <= k < |s| && !Allowed(s[k]) ==> r[k] == '-'
    ensures AllAllowed(s) ==> r == s
  {
    seq(|s|, i requires 0 <= i < |s| => if Allowed(s[i]) then s[i] else '-')
  }

  /** The first position at or after `i` that does not hold '-'
      (`|s|` when there is none). */
  function SkipDashes(s: string, i: nat): (r: nat)
    requires i <= |s|
    ensures i <= r <= |s|
    ensures forall k :: i <= k < r ==> s[k] == '-'
    ensures r == |s| || s[r] != '-'
    decreases |s| - i
  {
    if i == |s| || s[i] != '-' then i else SkipDashes(s, i + 1)
  }

  /** The end of `s[lo..j]` once its trailing run of '-' is dropped. */
  function TrimDashes(s: string, lo: nat, j: nat): (r: nat)
    requires lo <= j <= |s|
    ensures lo <= r <= j
    ensures forall k :: r <= k < j ==> s[k] == '-'
    ensures r == lo || s[r - 1] != '-'
    decreases j
  {
    if j == lo || s[j - 1] != '-' then j else TrimDashes(s, lo, j - 1)
  }

  /** `s.strip("-")`: the slice of `s` between its leading and trailing runs
      of '-', which neither starts nor ends with '-'. */
  function Strip(s: string): (r: string)
    ensures var lo := SkipDashes(s, 0);
      var hi := TrimDashes(s, lo, |s|);
      && r == s[lo..hi]
      && (forall k :: 0 <= k < lo ==> s[k] == '-')
      && (forall k :: hi <= k < |s| ==> s[k] == '-')
    ensures r == [] || (r[0] != '-' && r[|r| - 1] != '-')
  {
    var lo := SkipDashes(s, 0);
    s[lo..TrimDashes(s, lo, |s|)]
  }

  /** Stripping only removes characters, so it keeps the character class. */
  lemma StripAllowed(s: string)
    requires AllAllowed(s)
    ensures AllAllowed(Strip(s))
  {
    var lo := SkipDashes(s, 0);
    var r := Strip(s);
    forall k | 0 <= k < |r|
      ensures Allowed(r[k])
    {
      assert r[k] == s[lo + k];
    }
  }

  /** A string with no '-' at either end is its own strip. */
  lemma StripClean(s: string)
    requires s == [] || (s[0] != '-' && s[|s| - 1] != '-')
    ensures Strip(s) == s
  {
    if s != [] {
      assert SkipDashes(s, 0) == 0;
      assert TrimDashes(s, 0, |s|) == |s|;
    }
    assert s[0..|s|] == s;
  }

  /** A string of '-' only strips to nothing. */
  lemma DashesStripToNothing(s: string)
    requires forall k :: 0 <= k < |s| ==> s[k] == '-'
    ensures Strip(s) == []
  {
    assert SkipDashes(s, 0) == |s|;
  }

  /** The stem after lower-casing, substitution and stripping, before the cut. */
  function StrippedStem(fileName: string): (r: string)
    ensures AllAllowed(r)
    ensures r == [] || (r[0] != '-' && r[|r| - 1] != '-')
  {
    var sub := Substitute(Lower(SplitExtRoot(fileName)));
    StripAllowed(sub);
    Strip(sub)
  }

  /** `sanitize_collection_name`: the first 63 characters of the stripped stem.
      The result may be empty, and when the stripped stem is longer than 63
      characters the cut may leave a trailing '-'. */
  function Sanitize(fileName: string): (r: string)
    ensures |r| <= MaxNameLength
    ensures AllAllowed(r)
    ensures r == [] || r[0] != '-'
    ensures |StrippedStem(fileName)| <= MaxNameLength ==> r == [] || r[|r| - 1] != '-'
    ensures |r| <= |StrippedStem(fileName)| && r == StrippedStem(fileName)[..|r|]
    ensures |r| == if |StrippedStem(fileName)| <= MaxNameLength then |StrippedStem(fileName)|
                   else MaxNameLength
  {
    var stripped := StrippedStem(fileName);
    if |stripped| <= MaxNameLength then stripped
    else
      stripped[..MaxNameLength]
  }

  /** An extension: a '.' followed by characters other than '.' and '/'. */
  predicate IsExtension(ext: string)
  {
    && |ext| > 0 && ext[0] == '.'
    && (forall k :: 0 < k < |ext| ==> ext[k] != '.')
    && (forall k :: 0 <= k < |ext| ==> ext[k] != '/')
  }

  /** The last '.' and last '/' of `stem + ext`. */
  lemma SeparatorsOfStemAndExtension(stem: string, ext: string)
    requires IsExtension(ext)
    ensures LastIndexOf(stem + ext, '/') == LastIndexOf(stem, '/')
    ensures LastIndexOf(stem + ext, '.') == |stem|
  {
    var p := stem + ext;
    assert forall k :: 0 <= k < |stem| ==> p[k] == stem[k];
    assert forall k :: |stem| <= k < |p| ==> p[k] == ext[k - |stem|];
    LastIndexOfIs(p, '/', LastIndexOf(stem, '/'));
    LastIndexOfIs(p, '.', |stem|);
  }

  /** Only the last extension is dropped, when the last path component of
      the stem has a character other than '.'. */
  lemma RootOfStemAndExtension(stem: string, ext: string)
    requires IsExtension(ext)
    requires !OnlyDots(stem[LastIndexOf(stem, '/') + 1..])
    ensures SplitExtRoot(stem + ext) == stem
  {
    SeparatorsOfStemAndExtension(stem, ext);
    var p := stem + ext;
    assert p[LastIndexOf(stem, '/') + 1..|stem|] == stem[LastIndexOf(stem, '/') + 1..];
  }

  /** A component made only of dots before the last '.' is not a stem:
      ".pdf" and "..pdf" keep their extension. */
  lemma DotsAreNotAStem(stem: string, ext: string)
    requires IsExtension(ext)
    requires OnlyDots(stem[LastIndexOf(stem, '/') + 1..])
    ensures SplitExtRoot(stem + ext) == stem + ext
  {
    SeparatorsOfStemAndExtension(stem, ext);
    var p := stem + ext;
    assert p[LastIndexOf(stem, '/') + 1..|stem|] == stem[LastIndexOf(stem, '/') + 1..];
  }

  /** A string of allowed characters with no '-' at either end goes
      through lower-casing, substitution and stripping unchanged. */
  lemma CleanIsFixed(s: string)
    requires AllAllowed(s) && (s == [] || (s[0] != '-' && s[|s| - 1] != '-'))
    ensures Lower(s) == s && Substitute(s) == s && Strip(s) == s
  {
    assert forall k :: 0 <= k < |s| ==> !IsAsciiUpper(s[k]) by {
      forall k | 0 <= k < |s| ensures !IsAsciiUpper(s[k]) { assert Allowed(s[k]); }
    }
    LowerWithoutUpper(s);
    StripClean(s);
  }

  /** A stem that already is a valid name comes back unchanged. */
  lemma {:induction false} CleanStemIsKept(stem: string, ext: string)
    requires IsExtension(ext) && '/' !in stem
    requires 0 < |stem| <= MaxNameLength && AllAllowed(stem)
    requires stem[0] != '-' && stem[|stem| - 1] != '-' && stem[0] != '.'
    ensures Sanitize(stem + ext) == stem
  {
    LastIndexOfIs(stem, '/', -1);
    assert stem[0..] == stem;
    RootOfStemAndExtension(stem, ext);
    CleanIsFixed(stem);
    Steps(stem + ext, stem, stem, stem);
  }

  /** The extension does not matter: "Report.PDF" and "Report.pdf" name the
      same collection. */
  lemma SameStemSameName(stem: string, ext1: string, ext2: string)
    requires IsExtension(ext1) && IsExtension(ext2)
    requires !OnlyDots(stem[LastIndexOf(stem, '/') + 1..])
    ensures Sanitize(stem + ext1) == Sanitize(stem + ext2)
  {
    RootOfStemAndExtension(stem, ext1);
    RootOfStemAndExtension(stem, ext2);
  }

  /** No minimum length is enforced: a stem made only of characters outside
      the class (after lower-casing) yields the empty name. */
  lemma AllDisallowedGivesEmpty(fileName: string)
    requires var low := Lower(SplitExtRoot(fileName));
      forall k :: 0 <= k < |low| ==> !Allowed(low[k])
    ensures Sanitize(fileName) == ""
  {
    var low := Lower(SplitExtRoot(fileName));
    var sub := Substitute(low);
    assert forall k :: 0 <= k < |sub| ==> sub[k] == '-';
    DashesStripToNothing(sub);
    Steps(fileName, SplitExtRoot(fileName), low, []);
  }

  /** Sanitising step by step; used to evaluate concrete file names. */
  lemma Steps(fileName: string, root: string, low: string, stripped: string)
    requires SplitExtRoot(fileName) == root && Lower(root) == low
    requires Strip(Substitute(low)) == stripped
    ensures StrippedStem(fileName) == stripped
    ensures Sanitize(fileName) == if |stripped| <= MaxNameLength then stripped else stripped[..MaxNameLength]
  {
  }

  /** Checks the character class one character at a time. */
  predicate AllowedChars(s: string)
  {
    s == [] || (Allowed(s[0]) && AllowedChars(s[1..]))
  }

  lemma {:induction false} AllowedCharsAll(s: string)
    requires AllowedChars(s)
    ensures AllAllowed(s)
  {
    if s != [] {
      AllowedCharsAll(s[1..]);
      assert forall k :: 1 <= k < |s| ==> s[k] == s[1..][k - 1];
    }
  }

  lemma LowerWithoutUpper(s: string)
    requires forall k :: 0 <= k < |s| ==> !IsAsciiUpper(s[k])
    ensures Lower(s) == s
  {
  }

  lemma LowerContract()
    ensures Lower("Contract") == "contract"
  {
  }

  lemma RootOfContract()
    ensures SplitExtRoot("Contract.PDF") == "Contract"
  {
    assert "Contract.PDF" == "Contract" + ".PDF";
    RootOfStemAndExtension("Contract", ".PDF");
  }

  /** A bare extension is its own root. */
  lemma ExtensionOnly(ext: string)
    requires IsExtension(ext)
    ensures SplitExtRoot(ext) == ext
  {
    LastIndexOfIs(ext, '/', -1);
    LastIndexOfIs(ext, '.', 0);
    assert OnlyDots(ext[0..0]);
  }

  lemma RootOfDotFile()
    ensures SplitExtRoot(".pdf") == ".pdf"
  {
    ExtensionOnly(".pdf");
  }

  lemma RootOfNested()
    ensures SplitExtRoot("docs/a.pdf") == "docs/a"
  {
    assert "docs/a.pdf" == "docs/a" + ".pdf";
    RootOfStemAndExtension("docs/a", ".pdf");
  }

  lemma SubstituteNested()
    ensures Lower("docs/a") == "docs/a"
    ensures Strip(Substitute("docs/a")) == "docs-a"
  {
    LowerWithoutUpper("docs/a");
    var sub := Substitute("docs/a");
    assert !Allowed("docs/a"[4]);
    assert sub[4] == '-';
    assert sub == "docs-a";
    StripClean(sub);
  }

  lemma ContractIsClean()
    ensures Substitute("contract") == "contract" && Strip("contract") == "contract"
  {
    AllowedCharsAll("contract");
    CleanIsFixed("contract");
  }

  /** Upper-case letters are folded and the extension is dropped. */
  lemma ExampleCaseFolded()
    ensures Sanitize("Contract.PDF") == "contract"
  {
    ContractIsClean();
    RootOfContract();
    LowerContract();
    Steps("Contract.PDF", "Contract", "contract", "contract");
  }

  lemma DotPdfIsClean()
    ensures Lower(".pdf") == ".pdf" && Substitute(".pdf") == ".pdf" && Strip(".pdf") == ".pdf"
  {
    AllowedCharsAll(".pdf");
    CleanIsFixed(".pdf");
  }

  /** A file name that starts with its only '.' keeps that '.'. */
  lemma ExampleDotFile()
    ensures Sanitize(".pdf") == ".pdf"
  {
    DotPdfIsClean();
    RootOfDotFile();
    Steps(".pdf", ".pdf", ".pdf", ".pdf");
  }

  /** A directory part turns into part of the name ... */
  lemma ExampleDirectoryMatters()
    ensures Sanitize("docs/a.pdf") == "docs-a"
  {
    RootOfNested();
    SubstituteNested();
    Steps("docs/a.pdf", "docs/a", "docs/a", "docs-a");
  }

  /** ... so retrieval must be given the base name that indexing used. */
  lemma ExampleBasename()
    ensures Sanitize(Basename("docs/a.pdf")) == "a"
  {
    assert Basename("docs/a.pdf") == "a" + ".pdf";
    CleanStemIsKept("a", ".pdf");
  }

  lemma SanitizeTwoExtensions()
    ensures Sanitize("a.b.pdf") == "a.b"
  {
    assert "a.b.pdf" == "a.b" + ".pdf";
    CleanStemIsKept("a.b", ".pdf");
  }

  lemma SanitizeOneExtension()
    ensures Sanitize("a.b") == "a"
  {
    assert "a.b" == "a" + ".b";
    CleanStemIsKept("a", ".b");
  }

  /** Sanitising is not idempotent: a second pass drops another extension. */
  lemma NotIdempotent()
    ensures Sanitize("a.b.pdf") == "a.b"
    ensures Sanitize(Sanitize("a.b.pdf")) == "a"
  {
    SanitizeTwoExtensions();
    SanitizeOneExtension();
  }

  /** A 64-character stem whose 63rd character is '-'. */
  function LongStem(): (s: string)
    ensures |s| == 64
    ensures forall k :: 0 <= k < 62 ==> s[k] == 'a'
    ensures s[62] == '-' && s[63] == 'b'
  {
    seq(62, _ => 'a') + "-b"
  }

  lemma LongStemIsClean()
    ensures SplitExtRoot(LongStem() + ".pdf") == LongStem()
    ensures Lower(LongStem()) == LongStem()
    ensures Strip(Substitute(LongStem())) == LongStem()
  {
    var stem := LongStem();
    forall k | 0 <= k < |stem|
      ensures Allowed(stem[k]) && stem[k] != '/'
    {
      if k < 62 {
        assert stem[k] == 'a';
      }
    }
    LastIndexOfIs(stem, '/', -1);
    assert stem[0..] == stem && stem[0] == 'a';
    RootOfStemAndExtension(stem, ".pdf");
    CleanIsFixed(stem);
  }

  /** Because the strip comes before the cut, a name cut at 63 characters can
      end with '-'. */
  lemma CutCanLeaveTrailingDash()
    ensures var r := Sanitize(LongStem() + ".pdf");
      |r| == MaxNameLength && r[MaxNameLength - 1] == '-'
  {
    LongStemIsClean();
    Steps(LongStem() + ".pdf", LongStem(), LongStem(), LongStem());
  }
}
