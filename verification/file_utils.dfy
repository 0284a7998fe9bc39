/** The pure file-name and file-map helpers of `app/utils/file_utils.py`:
    `safe_filename`, `create_unique_filename`, `validate_file_path`,
    `copy_file_safe` and `move_file_safe`. The file system is a map from
    path to entry; the outcome of each system call that can fail is a
    parameter. */
module FileUtils {
  import opened Wrappers
  import opened Strings
  import opened Paths
  import opened Files

  // ---------------------------------------------------------- safe names

  /** The characters `safe_filename` replaces by `_`, in the order it replaces them. */
  const DANGEROUS: string := "<>:\"/\\|?*"

  const MAX_NAME_LENGTH: int := 255
  const UNNAMED: string := "unnamed_file"

  predicate IsDangerous(c: char)
  {
    c == '<' || c == '>' || c == ':' || c == '"' || c == '/' || c == '\\' || c == '|' || c == '?' || c == '*'
  }

  /** No character of `s` is one `safe_filename` replaces. */
  predicate Harmless(s: string)
  {
    forall i :: 0 <= i < |s| ==> !IsDangerous(s[i])
  }

  /** The characters `strip(' .')` removes. */
  predicate IsEdge(c: char)
  {
    c == ' ' || c == '.'
  }

  lemma DangerousChars()
    ensures forall c :: c in DANGEROUS <==> IsDangerous(c)
    ensures '_' !in DANGEROUS
  {
    assert DANGEROUS == ['<', '>', ':', '"', '/', '\\', '|', '?', '*'];
  }

  /** The replacement loop: `replace(c, '_')` for each `c` of `chars` in turn. */
  function ReplaceEach(s: string, chars: string): (r: string)
    ensures |r| == |s|
    decreases |chars|
  {
    if |chars| == 0 then s else ReplaceEach(ReplaceChar(s, chars[0], '_'), chars[1..])
  }

  /** The loop replaces each character of `chars` by `_` in one pass, and
      leaves every other character alone. */
  lemma {:induction false} ReplaceEachIsOnePass(s: string, chars: string)
    requires '_' !in chars
    ensures forall i :: 0 <= i < |s| ==>
      ReplaceEach(s, chars)[i] == (if s[i] in chars then '_' else s[i])
    decreases |chars|
  {
    if |chars| > 0 {
      var t := ReplaceChar(s, chars[0], '_');
      ReplaceEachIsOnePass(t, chars[1..]);
      forall i | 0 <= i < |s|
        ensures ReplaceEach(s, chars)[i] == (if s[i] in chars then '_' else s[i])
      {
        assert s[i] in chars <==> s[i] == chars[0] || s[i] in chars[1..] by {
          assert chars == [chars[0]] + chars[1..];
        }
      }
    }
  }

  /** The name after the replacement and the strip, before the length
      rule: never empty, harmless, and with no space or dot at either end. */
  function Cleaned(filename: string): (r: string)
    ensures |r| > 0 && Harmless(r)
    ensures !IsEdge(r[0]) && !IsEdge(r[|r| - 1])
    ensures |r| <= |filename| || r == UNNAMED
  {
    var replaced := ReplaceEach(filename, DANGEROUS);
    ReplacedIsHarmless(filename);
    var stripped := StripBy(replaced, IsEdge);
    if stripped == "" then
      UnnamedIsClean(UNNAMED);
      UNNAMED
    else
      StripKeepsHarmless(replaced);
      stripped
  }

  /** After the replacement loop no dangerous character is left. */
  lemma ReplacedIsHarmless(filename: string)
    ensures Harmless(ReplaceEach(filename, DANGEROUS))
  {
    DangerousChars();
    ReplaceEachIsOnePass(filename, DANGEROUS);
  }

  /** Stripping only removes characters. */
  lemma StripKeepsHarmless(s: string)
    requires Harmless(s)
    ensures Harmless(StripBy(s, IsEdge))
  {
    var t := StripBy(s, IsEdge);
    forall i | 0 <= i < |t| ensures !IsDangerous(t[i]) {
      var j :| 0 <= j < |s| && s[j] == t[i];
    }
  }

  /** The fallback name is itself clean. */
  lemma UnnamedIsClean(u: string)
    requires u == UNNAMED
    ensures |u| == 12 && Harmless(u) && !IsEdge(u[0]) && !IsEdge(u[|u| - 1])
  {
    assert u == ['u', 'n', 'n', 'a', 'm', 'e', 'd', '_', 'f', 'i', 'l', 'e'];
  }

  /** A name that is already harmless, non-empty and free of edge
      characters at both ends is not changed by the clean-up. */
  lemma CleanedKeepsSafeNames(filename: string)
    requires |filename| > 0 && Harmless(filename)
    requires !IsEdge(filename[0]) && !IsEdge(filename[|filename| - 1])
    ensures Cleaned(filename) == filename
  {
    DangerousChars();
    ReplaceEachIsOnePass(filename, DANGEROUS);
    assert ReplaceEach(filename, DANGEROUS) == filename;
  }

  /** `name[:255 - len(ext)] + ext` on the split of `s`, as written. */
  function TruncateAsWritten(s: string): (r: string)
    ensures |r| >= |SplitExt(s).1|
    ensures |s| > 0 ==> |r| > 0
  {
    var sp := SplitExt(s);
    assert sp.0 + sp.1 == s;
    SliceTo(sp.0, MAX_NAME_LENGTH - |sp.1|) + sp.1
  }

  /** `safe_filename(filename)` as written. */
  function SafeFilenameAsWritten(filename: string): (r: string)
    ensures |r| > 0
  {
    var named := Cleaned(filename);
    if |named| > MAX_NAME_LENGTH then TruncateAsWritten(named) else named
  }

  /** An extension longer than 255 characters makes the slice bound
      negative; the slice then drops characters from the end of the stem,
      the extension is kept whole, and the name stays over the limit. */
  lemma LongExtensionOverflows(filename: string)
    requires |SplitExt(Cleaned(filename)).1| > MAX_NAME_LENGTH
    ensures |SafeFilenameAsWritten(filename)| > MAX_NAME_LENGTH
  {
    var named := Cleaned(filename);
    assert SplitExt(named).0 + SplitExt(named).1 == named;
  }

  /** A name with a 301-character extension meets that condition. */
  lemma LongExtensionExample(filename: string)
    requires filename == "a." + seq(300, _ => 'b')
    ensures |SplitExt(Cleaned(filename)).1| == 301
  {
    var f := filename;
    assert f[0] == 'a' && f[1] == '.';
    assert forall j :: 2 <= j < |f| ==> f[j] == 'b';
    assert Harmless(f);
    CleanedKeepsSafeNames(f);
    ExtensionAfterFirst(f);
  }

  /** One ordinary character, then a dot, then neither dots nor
      separators: everything from the dot on is the extension. */
  lemma ExtensionAfterFirst(f: string)
    requires |f| >= 2 && f[0] != '.' && f[0] != '/' && f[1] == '.'
    requires forall j :: 2 <= j < |f| ==> f[j] != '.' && f[j] != '/'
    ensures SplitExt(f).1 == f[1..]
  {
    assert LastIndexOf(f, '/') == -1;
    LastIndexOfAt(f, '.', 1);
    assert NonDotIn(f, 0, 1);
  }

  /** The truncation with the bound the code evidently intends: the stem
      is cut so that stem and extension together fit in 255 characters,
      and an extension that alone is too long is cut as well. */
  function Truncate(s: string): (r: string)
    requires |s| > MAX_NAME_LENGTH
    ensures |r| == MAX_NAME_LENGTH
  {
    var sp := SplitExt(s);
    assert sp.0 + sp.1 == s;
    if |sp.1| <= MAX_NAME_LENGTH then SliceTo(sp.0, MAX_NAME_LENGTH - |sp.1|) + sp.1
    else SliceTo(s, MAX_NAME_LENGTH)
  }

  /** The cut name keeps the extension whenever it fits, and consists of
      characters of the original. */
  lemma TruncateKeeps(s: string)
    requires |s| > MAX_NAME_LENGTH
    ensures Harmless(s) ==> Harmless(Truncate(s))
    ensures |SplitExt(s).1| <= MAX_NAME_LENGTH ==>
      Truncate(s)[MAX_NAME_LENGTH - |SplitExt(s).1|..] == SplitExt(s).1
  {
    var sp := SplitExt(s);
    var name := sp.0;
    var ext := sp.1;
    var r := Truncate(s);
    assert name + ext == s;
    if |ext| <= MAX_NAME_LENGTH {
      var a := SliceTo(name, MAX_NAME_LENGTH - |ext|);
      assert r == a + ext;
      assert r[|a|..] == ext;
      assert forall i :: 0 <= i < |a| ==> r[i] == s[i];
      assert forall i :: |a| <= i < |r| ==> r[i] == s[|name| + i - |a|];
    }
  }

  /** `safe_filename(filename)` with the corrected truncation. */
  function SafeFilename(filename: string): (r: string)
    ensures 0 < |r| <= MAX_NAME_LENGTH && Harmless(r)
  {
    var named := Cleaned(filename);
    if |named| > MAX_NAME_LENGTH then
      TruncateKeeps(named);
      Truncate(named)
    else named
  }

  /** A name of at most 255 characters is only cleaned, never cut, so it
      has no space or dot at either end. */
  lemma ShortNamesAreNotCut(filename: string)
    requires |filename| <= MAX_NAME_LENGTH
    ensures SafeFilename(filename) == Cleaned(filename)
    ensures var r := SafeFilename(filename); !IsEdge(r[0]) && !IsEdge(r[|r| - 1])
  {
    var named := Cleaned(filename);
    assert |named| <= MAX_NAME_LENGTH by {
      if named == UNNAMED {
        UnnamedIsClean(named);
      }
    }
  }

  /** A name that is already safe comes back unchanged. */
  lemma SafeFilenameKeepsSafeNames(filename: string)
    requires 0 < |filename| <= MAX_NAME_LENGTH && Harmless(filename)
    requires !IsEdge(filename[0]) && !IsEdge(filename[|filename| - 1])
    ensures SafeFilename(filename) == filename
  {
    CleanedKeepsSafeNames(filename);
  }

  /** The two definitions agree on every name whose extension fits. */
  lemma SafeFilenameAgrees(filename: string)
    requires |SplitExt(Cleaned(filename)).1| <= MAX_NAME_LENGTH
    ensures SafeFilename(filename) == SafeFilenameAsWritten(filename)
  {
    var named := Cleaned(filename);
    if |named| > MAX_NAME_LENGTH {
      assert Truncate(named) == TruncateAsWritten(named);
    }
  }

  // -------------------------------------------------------- unique names

  /** The `counter`-th alternative name `f"{name}_{counter}{ext}"`. */
  function Candidate(filename: string, counter: nat): (c: string)
    ensures |c| > |filename|
  {
    var (name, ext) := SplitExt(filename);
    name + "_" + NatToString(counter) + ext
  }

  /** Different counters give different names. */
  lemma CandidateInjective(filename: string, a: nat, b: nat)
    requires Candidate(filename, a) == Candidate(filename, b)
    ensures a == b
  {
    var (name, ext) := SplitExt(filename);
    var sa := NatToString(a);
    var sb := NatToString(b);
    var p := |name| + 1;
    assert Candidate(filename, a) == (name + "_") + sa + ext;
    assert Candidate(filename, b) == (name + "_") + sb + ext;
    assert |sa| == |sb|;
    assert Candidate(filename, a)[p..p + |sa|] == sa;
    assert Candidate(filename, b)[p..p + |sb|] == sb;
    NatToStringInjective(a, b);
  }

  /** Joining distinct names to one directory gives distinct paths. */
  lemma JoinPathInjective(directory: string, a: string, b: string)
    requires JoinPath(directory, a) == JoinPath(directory, b)
    ensures a == b
  {
    var k := |directory| + 1;
    assert JoinPath(directory, a)[k..] == a;
    assert JoinPath(directory, b)[k..] == b;
  }

  /** `create_unique_filename(directory, filename)` over the set of paths
      that exist: the name itself if free, else the first free
      alternative, counting from 1. */
  method CreateUniqueFilename(existing: set<string>, directory: string, filename: string) returns (r: string)
    ensures JoinPath(directory, filename) !in existing ==> r == filename
    ensures JoinPath(directory, filename) in existing ==>
      exists k :: k >= 1 && r == Name(JoinPath(directory, Candidate(filename, k)))
        && JoinPath(directory, Candidate(filename, k)) !in existing
        && forall j :: 1 <= j < k ==> JoinPath(directory, Candidate(filename, j)) in existing
  {
    var path := JoinPath(directory, filename);
    if path !in existing {
      return filename;
    }
    var counter: nat := 1;
    ghost var tried: set<string> := {};
    while path in existing
      invariant counter >= 1
      invariant counter == 1 ==> path == JoinPath(directory, filename)
      invariant counter > 1 ==> path == JoinPath(directory, Candidate(filename, counter - 1))
      invariant forall j :: 1 <= j < counter - 1 ==> JoinPath(directory, Candidate(filename, j)) in existing
      invariant forall j :: j >= 1 && j >= counter - 1 ==> JoinPath(directory, Candidate(filename, j)) !in tried
      invariant counter > 1 ==> JoinPath(directory, filename) !in tried || JoinPath(directory, filename) in existing
      invariant tried <= existing
      invariant path !in tried
      decreases existing - tried
    {
      tried := tried + {path};
      var next := JoinPath(directory, Candidate(filename, counter));
      forall j | j >= 1 && j >= counter
        ensures JoinPath(directory, Candidate(filename, j)) != path
      {
        if JoinPath(directory, Candidate(filename, j)) == path {
          JoinPathInjective(directory, Candidate(filename, j), if counter == 1 then filename else Candidate(filename, counter - 1));
          if counter > 1 {
            CandidateInjective(filename, j, counter - 1);
          }
        }
      }
      path := next;
      counter := counter + 1;
    }
    r := Name(path);
  }

  /** For a name without separators the result is a name under which
      nothing exists yet. */
  lemma UniqueNameIsFree(existing: set<string>, directory: string, filename: string, r: string, k: nat)
    requires '/' !in filename
    requires r == Name(JoinPath(directory, Candidate(filename, k)))
    requires JoinPath(directory, Candidate(filename, k)) !in existing
    ensures JoinPath(directory, r) !in existing
  {
    var (name, ext) := SplitExt(filename);
    assert name + ext == filename;
    assert forall i :: 0 <= i < |name| ==> name[i] == filename[i];
    assert '/' !in NatToString(k);
    assert '/' !in Candidate(filename, k);
  }

  // ------------------------------------------------------ path validation

  /** What a path names: a regular file of some size, or a directory. */
  datatype Entry = File(size: nat) | Directory

  const MAX_VALID_SIZE: int := 100 * 1024 * 1024

  /** `str()` of a list of strings (quotes inside the strings are not escaped). */
  function ListRepr(xs: seq<string>): string
  {
    "[" + Join(seq(|xs|, i requires 0 <= i < |xs| => "'" + xs[i] + "'"), ", ") + "]"
  }

  /** The lower-cased allow-list. */
  function LowerAll(xs: seq<string>): (r: seq<string>)
    ensures |r| == |xs| && forall i :: 0 <= i < |xs| ==> r[i] == Lower(xs[i])
  {
    seq(|xs|, i requires 0 <= i < |xs| => Lower(xs[i]))
  }

  /** `validate_file_path(file_path, allowed_extensions)`: `None` for
      `(True, None)`, else the message of the first failing check. */
  function ValidateFilePath(fs: map<string, Entry>, path: string, allowed: Option<seq<string>>): (r: Option<string>)
    ensures r.None? <==>
      && path in fs && fs[path].File?
      && (allowed.Some? && |allowed.value| > 0 ==> Lower(Suffix(path)) in LowerAll(allowed.value))
      && 0 < fs[path].size <= MAX_VALID_SIZE
    ensures path !in fs ==> r == Some("File does not exist")
    ensures path in fs && fs[path].Directory? ==> r == Some("Path is not a file")
    ensures path in fs && fs[path].File? && allowed.Some? && |allowed.value| > 0 && Lower(Suffix(path)) !in LowerAll(allowed.value) ==>
      r == Some("File extension " + Lower(Suffix(path)) + " not allowed. Allowed: " + ListRepr(allowed.value))
  {
    if path !in fs then Some("File does not exist")
    else if fs[path].Directory? then Some("Path is not a file")
    else if allowed.Some? && |allowed.value| > 0 && Lower(Suffix(path)) !in LowerAll(allowed.value) then
      Some("File extension " + Lower(Suffix(path)) + " not allowed. Allowed: " + ListRepr(allowed.value))
    else if fs[path].size == 0 then Some("File is empty")
    else if fs[path].size > MAX_VALID_SIZE then Some("File too large (max 100MB)")
    else None
  }

  /** An absent or empty allow-list skips the extension check, and the
      check ignores the case of both the path and the list. */
  lemma ValidateFilePathExtensionRule(fs: map<string, Entry>, path: string, allowed: seq<string>)
    ensures ValidateFilePath(fs, path, Some([])) == ValidateFilePath(fs, path, None)
    ensures ValidateFilePath(fs, path, Some(allowed)).None? == ValidateFilePath(fs, path, Some(LowerAll(allowed))).None?
  {
    assert LowerAll(LowerAll(allowed)) == LowerAll(allowed) by {
      forall i | 0 <= i < |allowed| ensures Lower(Lower(allowed[i])) == Lower(allowed[i]) {
        LowerIdempotent(allowed[i]);
      }
    }
  }

  // ------------------------------------------------------ copy and move

  /** `copy_file_safe(source, destination)`. `copied` is what `shutil.copy2`
      leaves at the destination, or `None` when it raises; copying a file
      onto itself raises. */
  function CopyFileSafe(disk: Disk, source: string, destination: string, copied: Option<seq<byte>>): (r: (Disk, bool))
    ensures r.1 <==> source in disk && source != destination && copied.Some? && |copied.value| == |disk[source]|
    ensures r.1 ==> destination in r.0 && |r.0[destination]| == |disk[source]|
    ensures r.1 ==> source in r.0 && r.0[source] == disk[source]
    ensures r.0 == disk || (source in disk && source != destination && copied.Some? && r.0 == disk[destination := copied.value])
  {
    if source !in disk || source == destination || copied.None? then (disk, false)
    else
      var disk' := disk[destination := copied.value];
      (disk', |disk'[destination]| == |disk'[source]|)
  }

  /** `move_file_safe(source, destination)`: copy, then unlink the source
      when the copy is confirmed; `unlinked` says whether the unlink
      succeeds. */
  function MoveFileSafe(disk: Disk, source: string, destination: string, copied: Option<seq<byte>>, unlinked: bool): (r: (Disk, bool))
    ensures r.1 ==> source in disk && source !in r.0 && destination in r.0 && |r.0[destination]| == |disk[source]|
    ensures r.1 <==> CopyFileSafe(disk, source, destination, copied).1 && unlinked
    ensures source in disk && source !in r.0 ==> CopyFileSafe(disk, source, destination, copied).1
  {
    var (disk', ok) := CopyFileSafe(disk, source, destination, copied);
    if ok && unlinked then (disk' - {source}, true) else (disk', false)
  }
}
