/** POSIX path helpers as the modelled code uses them: `os.path.splitext`
    (the `posixpath` rule) and `pathlib.Path(...).name` / `.suffix`.
    Paths are plain strings with `/` as the only separator; no
    normalisation of repeated or trailing separators is modelled. */
module Paths {
  import opened Strings

  /** `s.rfind(c)`: the index of the last `c`, or -1. */
  function LastIndexOf(s: string, c: char): (i: int)
    ensures -1 <= i < |s|
    ensures i >= 0 ==> s[i] == c
    ensures forall j :: i < j < |s| ==> s[j] != c
    decreases |s|
  {
    if |s| == 0 then -1
    else if s[|s| - 1] == c then |s| - 1
    else LastIndexOf(s[..|s| - 1], c)
  }

  /** `Path(p).name`: the final component, after the last separator. */
  function Name(p: string): (r: string)
    ensures '/' !in r
    ensures |r| <= |p| && r == p[|p| - |r|..]
    ensures '/' !in p ==> r == p
  {
    var k := LastIndexOf(p, '/') + 1;
    assert forall j :: 0 <= j < |p[k..]| ==> p[k..][j] == p[k + j];
    p[k..]
  }

  /** `Path(directory) / filename` for a relative `filename`. */
  function JoinPath(directory: string, filename: string): (r: string)
    ensures '/' !in filename ==> Name(r) == filename
  {
    var r := directory + "/" + filename;
    if '/' !in filename then
      assert r[|r| - |filename|..] == filename;
      NameOfSuffix(r, filename);
      r
    else r
  }

  /** A path ending in a separator-free `tail` after a separator has `tail` as its name. */
  lemma NameOfSuffix(r: string, tail: string)
    requires |tail| < |r| && r[|r| - |tail|..] == tail && r[|r| - |tail| - 1] == '/'
    requires '/' !in tail
    ensures Name(r) == tail
  {
  }

  /** Some index in `[lo, hi)` of `p` holds a character other than `.`. */
  predicate NonDotIn(p: string, lo: int, hi: int)
    requires 0 <= lo <= hi <= |p|
  {
    exists j :: lo <= j < hi && p[j] != '.'
  }

  /** Where `os.path.splitext` cuts `p`: the last dot of the final
      component when something other than dots precedes it in that
      component, else `|p|` (no extension). */
  function ExtIndex(p: string): (k: int)
    ensures 0 <= k <= |p|
    ensures k < |p| ==> p[k] == '.' && LastIndexOf(p, '/') < k
    ensures k < |p| ==> forall j :: k < j < |p| ==> p[j] != '.' && p[j] != '/'
    ensures k < |p| ==> NonDotIn(p, LastIndexOf(p, '/') + 1, k)
  {
    var sepIndex := LastIndexOf(p, '/');
    var dotIndex := LastIndexOf(p, '.');
    if dotIndex > sepIndex && NonDotIn(p, sepIndex + 1, dotIndex) then dotIndex else |p|
  }

  /** `os.path.splitext(p)`: `(root, ext)`. */
  function SplitExt(p: string): (r: (string, string))
    ensures r.0 + r.1 == p
    ensures r.1 == "" || (r.1[0] == '.' && '/' !in r.1 && '.' !in r.1[1..])
    ensures r.1 != "" ==> NonDotIn(p, LastIndexOf(p, '/') + 1, |r.0|)
  {
    var k := ExtIndex(p);
    assert p[..k] + p[k..] == p;
    if k < |p| then
      ExtensionShape(p, k);
      (p[..k], p[k..])
    else (p, "")
  }

  /** The text from the cut point on is a dot followed by neither dots nor separators. */
  lemma ExtensionShape(p: string, k: nat)
    requires k < |p| && p[k] == '.'
    requires forall j :: k < j < |p| ==> p[j] != '.' && p[j] != '/'
    ensures '/' !in p[k..] && '.' !in p[k..][1..]
  {
    var ext := p[k..];
    forall j | 0 <= j < |ext| ensures ext[j] != '/' {
      assert ext[j] == p[k + j];
    }
    forall j | 0 <= j < |ext[1..]| ensures ext[1..][j] != '.' {
      assert ext[1..][j] == p[k + 1 + j];
    }
  }

  /** `Path(p).suffix`: the final component's last dot and what follows,
      unless that dot is the component's first or last character. */
  function Suffix(p: string): (r: string)
    ensures r == "" || (r[0] == '.' && |r| >= 2 && '/' !in r && '.' !in r[1..])
    ensures |r| <= |Name(p)| && r == Name(p)[|Name(p)| - |r|..]
  {
    var name := Name(p);
    var i := LastIndexOf(name, '.');
    if 0 < i < |name| - 1 then
      assert forall j :: 0 <= j < |name[i..][1..]| ==> name[i..][1..][j] == name[i + 1 + j];
      name[i..]
    else ""
  }

  /** The two extension rules agree on every path whose final component
      neither starts nor ends with a dot. */
  lemma SuffixAgreesWithSplitExt(p: string)
    requires |Name(p)| > 0 ==> Name(p)[0] != '.' && Name(p)[|Name(p)| - 1] != '.'
    ensures Suffix(p) == SplitExt(p).1
  {
    if LastIndexOf(Name(p), '.') >= 0 {
      DottedNameAgrees(p);
    } else {
      UndottedNameAgrees(p);
    }
  }

  lemma DottedNameAgrees(p: string)
    requires LastIndexOf(Name(p), '.') >= 0
    requires Name(p)[0] != '.' && Name(p)[|Name(p)| - 1] != '.'
    ensures Suffix(p) == SplitExt(p).1
  {
    var name := Name(p);
    var base := |p| - |name|;
    var i := LastIndexOf(name, '.');
    assert 0 < i < |name| - 1;
    LastIndexOfInTail(p, base, '.');
    ExtIndexAtNameDot(p, base, i);
    assert SplitExt(p).1 == p[base + i..];
    assert Suffix(p) == name[i..];
    DropOfDrop(p, base, i);
  }

  lemma UndottedNameAgrees(p: string)
    requires LastIndexOf(Name(p), '.') < 0
    ensures Suffix(p) == SplitExt(p).1
  {
    var name := Name(p);
    var base := |p| - |name|;
    assert forall j :: base <= j < |p| ==> p[j] == name[j - base];
    assert ExtIndex(p) == |p|;
  }

  /** When the last dot of `p` lies after its first character of the final
      component (which starts at `base`), `splitext` cuts at that dot. */
  lemma ExtIndexAtNameDot(p: string, base: nat, i: nat)
    requires base == LastIndexOf(p, '/') + 1
    requires 0 < i && base + i < |p| && LastIndexOf(p, '.') == base + i
    requires p[base] != '.'
    ensures ExtIndex(p) == base + i
  {
    assert NonDotIn(p, base, base + i);
  }

  /** Dropping `a` elements and then `b` more drops `a + b`. */
  lemma DropOfDrop(s: string, a: nat, b: nat)
    requires a + b <= |s|
    ensures s[a..][b..] == s[a + b..]
  {
  }

  /** An occurrence of `c` in a tail of `s` is found by `rfind` on `s` at
      the matching offset. */
  lemma LastIndexOfInTail(s: string, base: nat, c: char)
    requires base <= |s| && LastIndexOf(s[base..], c) >= 0
    ensures LastIndexOf(s, c) == base + LastIndexOf(s[base..], c)
  {
    var t := s[base..];
    var i := LastIndexOf(t, c);
    forall j | base + i < j < |s| ensures s[j] != c {
      assert s[j] == t[j - base];
    }
    LastIndexOfAt(s, c, base + i);
  }

  /** An occurrence of `c` with none after it is the one `rfind` reports. */
  lemma LastIndexOfAt(s: string, c: char, i: int)
    requires 0 <= i < |s| && s[i] == c
    requires forall j :: i < j < |s| ==> s[j] != c
    ensures LastIndexOf(s, c) == i
  {
  }

  /** A leading-dots name: `splitext` sees no extension, `suffix` does. */
  lemma LeadingDotsDisagree()
    ensures SplitExt("..jpg").1 == ""
    ensures Suffix("..jpg") == ".jpg"
  {
    assert LastIndexOf("..jpg", '/') == -1;
    assert "..jpg"[1] == '.' && "..jpg"[2] != '.';
    assert LastIndexOf("..jpg", '.') == 1;
    assert !NonDotIn("..jpg", 0, 1);
    assert Name("..jpg") == "..jpg";
  }

  /** A trailing dot: `splitext` reports `"."`, `suffix` reports nothing. */
  lemma TrailingDotDisagrees()
    ensures SplitExt("a.").1 == "."
    ensures Suffix("a.") == ""
  {
    assert LastIndexOf("a.", '/') == -1;
    assert LastIndexOf("a.", '.') == 1;
    assert "a."[0] != '.';
    assert NonDotIn("a.", 0, 1);
    assert Name("a.") == "a.";
  }

  /** Two strings of equal length with `c` at the same positions have
      their last `c` at the same index. */
  lemma LastIndexOfSamePositions(s: string, t: string, c: char)
    requires |s| == |t|
    requires forall j :: 0 <= j < |s| ==> (s[j] == c <==> t[j] == c)
    ensures LastIndexOf(s, c) == LastIndexOf(t, c)
  {
    var i := LastIndexOf(s, c);
    if i >= 0 {
      LastIndexOfAt(t, c, i);
    } else {
      var k := LastIndexOf(t, c);
      if k >= 0 {
        assert false;
      }
    }
  }

  /** Lower-casing keeps every dot and separator where it is. */
  lemma LowerKeepsMarks(s: string)
    ensures forall j :: 0 <= j < |s| ==> (s[j] == '.' <==> Lower(s)[j] == '.')
    ensures forall j :: 0 <= j < |s| ==> (s[j] == '/' <==> Lower(s)[j] == '/')
  {
  }

  /** Lower-casing commutes with dropping a prefix. */
  lemma LowerDrop(s: string, k: nat)
    requires k <= |s|
    ensures Lower(s)[k..] == Lower(s[k..])
  {
  }

  /** `Path(p.lower()).name == Path(p).name.lower()`. */
  lemma NameOfLower(p: string)
    ensures Name(Lower(p)) == Lower(Name(p))
  {
    LowerKeepsMarks(p);
    LastIndexOfSamePositions(p, Lower(p), '/');
    LowerDrop(p, LastIndexOf(p, '/') + 1);
  }

  /** Lower-casing a path lower-cases its suffix and nothing more:
      `Path(p.lower()).suffix == Path(p).suffix.lower()`. */
  lemma SuffixOfLower(p: string)
    ensures Suffix(Lower(p)) == Lower(Suffix(p))
  {
    NameOfLower(p);
    var name := Name(p);
    LowerKeepsMarks(name);
    LastIndexOfSamePositions(name, Lower(name), '.');
    var i := LastIndexOf(name, '.');
    if 0 < i < |name| - 1 {
      LowerDrop(name, i);
    }
  }

  /** Lower-casing keeps whether a range holds a non-dot character. */
  lemma NonDotInLower(p: string, lo: int, hi: int)
    requires 0 <= lo <= hi <= |p|
    ensures NonDotIn(p, lo, hi) == NonDotIn(Lower(p), lo, hi)
  {
    LowerKeepsMarks(p);
    if NonDotIn(p, lo, hi) {
      var j :| lo <= j < hi && p[j] != '.';
      assert Lower(p)[j] != '.';
    }
    if NonDotIn(Lower(p), lo, hi) {
      var j :| lo <= j < hi && Lower(p)[j] != '.';
      assert p[j] != '.';
    }
  }

  /** `os.path.splitext(p.lower())[1] == os.path.splitext(p)[1].lower()`. */
  lemma SplitExtOfLower(p: string)
    ensures SplitExt(Lower(p)).1 == Lower(SplitExt(p).1)
  {
    var lp := Lower(p);
    LowerKeepsMarks(p);
    LastIndexOfSamePositions(p, lp, '/');
    LastIndexOfSamePositions(p, lp, '.');
    var sep := LastIndexOf(p, '/');
    var dot := LastIndexOf(p, '.');
    if dot > sep {
      NonDotInLower(p, sep + 1, dot);
    }
    assert ExtIndex(lp) == ExtIndex(p);
    var k := ExtIndex(p);
    if k < |p| {
      LowerDrop(p, k);
    }
  }

  /** A format check on the lower-cased suffix gives the same answer for a
      name and for its lower-cased form. */
  lemma LowerSuffixOfLower(p: string)
    ensures Lower(Suffix(Lower(p))) == Lower(Suffix(p))
  {
    SuffixOfLower(p);
    LowerIdempotent(Suffix(p));
  }
}
