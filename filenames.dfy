/** sanitize_filename of shared/utils.py: refuse a blank name, replace the
    characters Windows and POSIX forbid in names with '_', delete control
    characters, and cut an over-long name down to 255 characters keeping its
    extension. */
module Filenames {
  import opened Wrappers
  import opened Text
  import opened PosixPath

  const MaxFilenameLength := 255

  /** The class `[<>:"/\\|?*]`. */
  predicate IsUnsafe(c: char)
  {
    c == '<' || c == '>' || c == ':' || c == '"' || c == '/' || c == '\\' || c == '|' || c == '?' || c == '*'
  }

  /** The class `[\x00-\x1f\x7f-\x9f]`. */
  predicate IsControl(c: char)
  {
    c <= '\U{1f}' || ('\U{7f}' <= c <= '\U{9f}')
  }

  /** First substitution: each unsafe character becomes one '_'. */
  function ReplaceUnsafe(s: string): (r: string)
    ensures |r| == |s|
    ensures forall i :: 0 <= i < |s| ==> r[i] == (if IsUnsafe(s[i]) then '_' else s[i])
  {
    if s == [] then [] else [if IsUnsafe(s[0]) then '_' else s[0]] + ReplaceUnsafe(s[1..])
  }

  /** Second substitution: control characters are deleted, the rest kept in
      order. */
  function RemoveControl(s: string): (r: string)
    ensures |r| <= |s|
    ensures forall c :: c in r <==> c in s && !IsControl(c)
  {
    if s == [] then []
    else if IsControl(s[0]) then RemoveControl(s[1..])
    else
      assert forall c :: c in s <==> c == s[0] || c in s[1..];
      [s[0]] + RemoveControl(s[1..])
  }

  /** `s[:n]` of Python, where a negative `n` counts from the end. */
  function SliceTo(s: string, n: int): (r: string)
    ensures r <= s
    ensures n >= 0 ==> |r| == if n <= |s| then n else |s|
  {
    if n >= 0 then (if n <= |s| then s[..n] else s)
    else if |s| + n >= 0 then s[..|s| + n] else []
  }

  /** The length limit: a name over 255 characters keeps its extension and
      as much of the part before it as fits. */
  function Shorten(s: string): (r: string)
  {
    if |s| > MaxFilenameLength then
      var (name, ext) := SplitExt(s);
      SliceTo(name, MaxFilenameLength - |ext|) + ext
    else s
  }

  function SanitizeFilename(filename: string): (r: Result<string, string>)
    ensures r.Err? <==> forall i :: 0 <= i < |filename| ==> IsSpace(filename[i])
  {
    StripEmptyIffAllSpace(filename);
    if filename == [] || Strip(filename) == [] then Err("Filename cannot be empty")
    else Ok(Shorten(RemoveControl(ReplaceUnsafe(filename))))
  }

  /** Cutting a name down only ever keeps a prefix of what comes before the
      extension and the extension itself. */
  lemma ShortenKeepsCharacters(s: string)
    ensures forall c :: c in Shorten(s) ==> c in s
  {
    if |s| > MaxFilenameLength {
      var (name, ext) := SplitExt(s);
      var head := SliceTo(name, MaxFilenameLength - |ext|);
      assert forall c :: c in head ==> c in name;
      assert forall c :: c in name || c in ext ==> c in s by {
        assert name + ext == s;
      }
    }
  }

  /** The result holds no unsafe and no control character. */
  lemma SanitizedIsSafe(filename: string)
    requires SanitizeFilename(filename).Ok?
    ensures forall c :: c in SanitizeFilename(filename).value ==> !IsUnsafe(c) && !IsControl(c)
  {
    var replaced := ReplaceUnsafe(filename);
    var cleaned := RemoveControl(replaced);
    ShortenKeepsCharacters(cleaned);
    forall c | c in replaced
      ensures !IsUnsafe(c)
    {
      var i :| 0 <= i < |replaced| && replaced[i] == c;
    }
  }

  /** An extension of at most 255 characters survives at the end of the
      result, and the result is at most 255 characters long. */
  lemma SanitizedLengthAndExtension(filename: string)
    requires SanitizeFilename(filename).Ok?
    ensures var cleaned := RemoveControl(ReplaceUnsafe(filename));
            var ext := SplitExt(cleaned).1;
            var r := SanitizeFilename(filename).value;
            |ext| <= MaxFilenameLength ==> |r| <= MaxFilenameLength && EndsWith(r, ext)
  {
    var cleaned := RemoveControl(ReplaceUnsafe(filename));
    var (name, ext) := SplitExt(cleaned);
    var r := Shorten(cleaned);
    if |cleaned| <= MaxFilenameLength {
      assert cleaned == name + ext;
      assert r[|r| - |ext|..] == ext;
    } else if |ext| <= MaxFilenameLength {
      var head := SliceTo(name, MaxFilenameLength - |ext|);
      assert r == head + ext;
      assert r[|r| - |ext|..] == ext;
    }
  }

  /** A name that is already short and clean comes back as it was. */
  lemma CleanNameUnchanged(filename: string)
    requires |filename| <= MaxFilenameLength
    requires exists i :: 0 <= i < |filename| && !IsSpace(filename[i])
    requires forall c :: c in filename ==> !IsUnsafe(c) && !IsControl(c)
    ensures SanitizeFilename(filename) == Ok(filename)
  {
    assert ReplaceUnsafe(filename) == filename;
    NoControlUnchanged(filename);
  }

  lemma {:induction false} NoControlUnchanged(s: string)
    requires forall c :: c in s ==> !IsControl(c)
    ensures RemoveControl(s) == s
  {
    if s != [] {
      assert s[0] in s;
      assert forall c :: c in s[1..] ==> c in s;
      NoControlUnchanged(s[1..]);
    }
  }

  /** Contrary to its own documentation, the function does not refuse a name
      made only of characters it rejects: a short name of unsafe printable
      characters, such as "<<<", comes out as as many underscores. */
  lemma UnsafeOnlyBecomesUnderscores(filename: string)
    requires 0 < |filename| <= MaxFilenameLength
    requires forall i :: 0 <= i < |filename| ==> IsUnsafe(filename[i])
    ensures SanitizeFilename(filename) == Ok(seq(|filename|, _ => '_'))
  {
    assert !IsSpace(filename[0]);
    var replaced := ReplaceUnsafe(filename);
    assert replaced == seq(|filename|, _ => '_');
    NoControlUnchanged(replaced);
  }

  /** Likewise, a name made only of control characters that are not
      whitespace, such as "\x01\x02", comes out empty. */
  lemma ControlOnlyBecomesEmpty(filename: string)
    requires filename != []
    requires forall i :: 0 <= i < |filename| ==> IsControl(filename[i]) && !IsSpace(filename[i])
    ensures SanitizeFilename(filename) == Ok([])
  {
    var replaced := ReplaceUnsafe(filename);
    assert replaced == filename;
    AllControlRemoved(replaced);
  }

  lemma {:induction false} AllControlRemoved(s: string)
    requires forall i :: 0 <= i < |s| ==> IsControl(s[i])
    ensures RemoveControl(s) == []
  {
    if s != [] {
      AllControlRemoved(s[1..]);
    }
  }
}
