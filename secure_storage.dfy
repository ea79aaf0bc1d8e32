/** Secure file storage of shared/storage.py: the directory-traversal check
    and the retrying write and read.  The file system is not modelled: an
    attempt's success is given by `succeeds(k)` for the k-th attempt, and
    the exponential back-off is recorded as the list of delays in
    milliseconds instead of sleeping. */
module SecureStorage {
  import opened Wrappers
  import opened Text
  import opened PosixPath

  // ---------------------------------------------------------------------------
  // _validate_secure_path

  datatype StorageFailure = SecurityError(target: string) | StorageError

  /** The resolved target of a request: a relative target is resolved below
      the resolved base, an absolute one on its own. */
  function FullPath(cwd: seq<string>, baseDir: string, target: string): (r: seq<string>)
    requires Canonical(cwd)
    ensures Canonical(r)
  {
    Resolve(Resolve(cwd, baseDir), target)
  }

  /** _validate_secure_path as written: the resolved target passes when its
      string starts with the resolved base's string. */
  function ValidateSecurePathAsWritten(cwd: seq<string>, baseDir: string, target: string): (r: Result<seq<string>, StorageFailure>)
    requires Canonical(cwd)
    ensures r.Ok? <==> StartsWith(PathString(FullPath(cwd, baseDir, target)), PathString(Resolve(cwd, baseDir)))
    ensures r.Ok? ==> r.value == FullPath(cwd, baseDir, target)
    ensures r.Err? ==> r.error == SecurityError(target)
  {
    var base := Resolve(cwd, baseDir);
    var full := FullPath(cwd, baseDir, target);
    if StartsWith(PathString(full), PathString(base)) then Ok(full) else Err(SecurityError(target))
  }

  /** The check as intended: the resolved target passes when the base is
      one of its ancestors or the base itself, component by component. */
  function ValidateSecurePath(cwd: seq<string>, baseDir: string, target: string): (r: Result<seq<string>, StorageFailure>)
    requires Canonical(cwd)
    ensures r.Ok? <==> Resolve(cwd, baseDir) <= FullPath(cwd, baseDir, target)
    ensures r.Ok? ==> r.value == FullPath(cwd, baseDir, target)
    ensures r.Err? ==> r.error == SecurityError(target)
  {
    var base := Resolve(cwd, baseDir);
    var full := FullPath(cwd, baseDir, target);
    if base <= full then Ok(full) else Err(SecurityError(target))
  }

  /** Whatever the intended check accepts, the written one accepts too. */
  lemma AsWrittenAcceptsIntended(cwd: seq<string>, baseDir: string, target: string)
    requires Canonical(cwd)
    ensures ValidateSecurePath(cwd, baseDir, target).Ok? ==> ValidateSecurePathAsWritten(cwd, baseDir, target).Ok?
  {
    var base := Resolve(cwd, baseDir);
    var full := FullPath(cwd, baseDir, target);
    if base <= full {
      PathStringPrefix(base, full);
    }
  }

  /** The written check lets a relative target climb out of the base into a
      sibling whose name extends the base's: for base "/base", the target
      "../base-x" resolves to "/base-x", whose string starts with "/base". */
  lemma SiblingEscapesAsWritten()
    ensures ValidateSecurePathAsWritten([], "/base", "../base-x") == Ok(["base-x"])
    ensures ValidateSecurePath([], "/base", "../base-x").Err?
  {
    ExampleResolves();
    ExampleStrings();
  }

  lemma ExampleResolves()
    ensures Resolve([], "/base") == ["base"]
    ensures FullPath([], "/base", "../base-x") == ["base-x"]
  {
    ExampleSplits();
    ExampleBaseWalk();
    ExampleTargetWalk();
  }

  lemma ExampleBaseWalk()
    ensures Walk([], ["", "base"]) == ["base"]
  {
    assert Step([], "") == [];
    assert Step([], "base") == ["base"];
    assert Walk([], ["", "base"]) == Walk([], ["base"]) == Walk(["base"], []);
  }

  lemma ExampleTargetWalk()
    ensures Walk(["base"], ["..", "base-x"]) == ["base-x"]
  {
    assert Step(["base"], "..") == [];
    assert Step([], "base-x") == ["base-x"];
    assert Walk(["base"], ["..", "base-x"]) == Walk([], ["base-x"]) == Walk(["base-x"], []);
  }

  lemma ExampleStrings()
    ensures PathString(["base-x"]) == "/base-x"
    ensures PathString(["base"]) == "/base"
    ensures StartsWith("/base-x", "/base")
  {
    assert Rooted(["base-x"]) == Rooted([]) + "/" + "base-x";
    assert Rooted(["base"]) == Rooted([]) + "/" + "base";
    assert "/base-x"[..5] == "/base";
  }

  lemma ExampleSplits()
    ensures Split("/base", '/') == ["", "base"]
    ensures Split("../base-x", '/') == ["..", "base-x"]
  {
    SplitRooted("base");
    assert "/" + "base" == "/base";
    SplitParent("base-x");
    assert "../" + "base-x" == "../base-x";
  }

  lemma SplitRooted(name: string)
    requires '/' !in name
    ensures Split("/" + name, '/') == ["", name]
  {
    assert ("/" + name)[1..] == name;
  }

  lemma SplitParent(name: string)
    requires '/' !in name
    ensures Split("../" + name, '/') == ["..", name]
  {
    SplitRooted(name);
    var s := "../" + name;
    var u := Split("/" + name, '/');
    assert s[1..][1..] == "/" + name;
    assert u[0] == [] && u[1..] == [name];
    var t := Split(s[1..], '/');
    assert t == [['.'] + u[0]] + u[1..];
    assert t[0] == "." && t[1..] == [name];
    assert s[0] == '.' && s[1..][0] == '.';
    assert Split(s, '/') == [['.'] + t[0]] + t[1..];
    assert ['.'] + t[0] == "..";
  }

  /** A target that resolves to a proper ancestor of the base, such as "..",
      is refused even by the written check. */
  lemma AncestorRefused(cwd: seq<string>, baseDir: string, target: string)
    requires Canonical(cwd)
    requires FullPath(cwd, baseDir, target) < Resolve(cwd, baseDir)
    ensures ValidateSecurePathAsWritten(cwd, baseDir, target).Err?
  {
    var base := Resolve(cwd, baseDir);
    var full := FullPath(cwd, baseDir, target);
    RootedLength(base);
    if full != [] {
      var rest := base[|full|..];
      assert base == full + rest;
      RootedAppend(full, rest);
      RootedLength(rest);
    }
  }

  /** A relative target without ".." segments stays below the base, and both
      checks accept it. */
  lemma RelativeWithoutParentAccepted(cwd: seq<string>, baseDir: string, target: string)
    requires Canonical(cwd)
    requires !IsAbsolute(target)
    requires forall i :: 0 <= i < |Split(target, '/')| ==> Split(target, '/')[i] != ".."
    ensures ValidateSecurePath(cwd, baseDir, target).Ok?
    ensures ValidateSecurePathAsWritten(cwd, baseDir, target).Ok?
  {
    WalkDownward(Resolve(cwd, baseDir), Split(target, '/'));
    AsWrittenAcceptsIntended(cwd, baseDir, target);
  }

  // ---------------------------------------------------------------------------
  // The retry loop of secure_write_file and secure_read_file

  function Pow2(k: nat): (r: nat)
    ensures r >= 1
  {
    if k == 0 then 1 else 2 * Pow2(k - 1)
  }

  /** The sleeps after the first `n` failed attempts: 0.1 * 2^k seconds
      after attempt k, in milliseconds. */
  function Backoff(n: nat): (r: seq<nat>)
    ensures |r| == n
    ensures forall k :: 0 <= k < n ==> r[k] == 100 * Pow2(k)
  {
    if n == 0 then [] else Backoff(n - 1) + [100 * Pow2(n - 1)]
  }

  /** How a retry loop ended: the attempt that succeeded, every attempt
      failed, or no attempt was made. */
  datatype RetryOutcome = Succeeded(attempt: nat) | Exhausted | NotAttempted

  /** `for attempt in range(max_retries)`: try; return on success; raise
      after the last failure; otherwise sleep and try again. */
  method Retry(maxRetries: int, succeeds: nat -> bool) returns (outcome: RetryOutcome, delays: seq<nat>)
    ensures outcome.NotAttempted? <==> maxRetries <= 0
    ensures outcome.Succeeded? ==> outcome.attempt < maxRetries && succeeds(outcome.attempt)
                                   && (forall j :: 0 <= j < outcome.attempt ==> !succeeds(j))
                                   && delays == Backoff(outcome.attempt)
    ensures outcome.Exhausted? <==> maxRetries > 0 && forall j :: 0 <= j < maxRetries ==> !succeeds(j)
    ensures outcome.Exhausted? ==> delays == Backoff(maxRetries - 1)
    ensures outcome.NotAttempted? ==> delays == []
  {
    delays := [];
    var attempt: nat := 0;
    while attempt < maxRetries
      invariant attempt == 0 || attempt < maxRetries
      invariant forall j :: 0 <= j < attempt ==> !succeeds(j)
      invariant delays == Backoff(attempt)
      decreases maxRetries - attempt
    {
      if succeeds(attempt) {
        return Succeeded(attempt), delays;
      }
      if attempt == maxRetries - 1 {
        return Exhausted, delays;
      }
      delays := delays + [100 * Pow2(attempt)];
      attempt := attempt + 1;
    }
    outcome := NotAttempted;
  }

  /** Which containment test a storage call runs: `AsWritten` is the
      string-prefix test of shared/storage.py:60-61, `Intended` the
      component-wise test it evidently means. */
  datatype PathCheck = AsWritten | Intended

  function CheckPath(check: PathCheck, cwd: seq<string>, baseDir: string, target: string): Result<seq<string>, StorageFailure>
    requires Canonical(cwd)
  {
    match check
    case AsWritten => ValidateSecurePathAsWritten(cwd, baseDir, target)
    case Intended => ValidateSecurePath(cwd, baseDir, target)
  }

  /** What a storage call comes to: its value, Python's `None` when the loop
      never ran, or the exception it raises. */
  datatype Outcome<T> = Done(value: T) | ReturnedNone | Failed(failure: StorageFailure)

  /** secure_write_file: validate the path first; a refused path leads to no
      attempt at all.  The written path is returned on success.  The source
      runs `check == AsWritten`. */
  method SecureWriteFile(check: PathCheck, cwd: seq<string>, baseDir: string, filename: string, maxRetries: int,
                         succeeds: nat -> bool) returns (r: Outcome<seq<string>>, delays: seq<nat>, tried: RetryOutcome)
    requires Canonical(cwd)
    ensures CheckPath(check, cwd, baseDir, filename).Err? ==>
              r == Failed(SecurityError(filename)) && delays == [] && tried == NotAttempted
    ensures CheckPath(check, cwd, baseDir, filename).Ok? ==>
              && (tried.Succeeded? <==> r == Done(FullPath(cwd, baseDir, filename)))
              && (tried.Exhausted? <==> r == Failed(StorageError))
              && (tried.NotAttempted? <==> r == ReturnedNone)
              && (r == ReturnedNone <==> maxRetries <= 0)
    ensures tried.Succeeded? ==> tried.attempt < maxRetries && succeeds(tried.attempt)
                                 && (forall j :: 0 <= j < tried.attempt ==> !succeeds(j))
                                 && delays == Backoff(tried.attempt)
    ensures CheckPath(check, cwd, baseDir, filename).Ok? ==>
              (tried.Exhausted? <==> maxRetries > 0 && forall j :: 0 <= j < maxRetries ==> !succeeds(j))
    ensures tried.Exhausted? ==> delays == Backoff(maxRetries - 1)
    ensures tried.NotAttempted? ==> delays == []
  {
    var checked := CheckPath(check, cwd, baseDir, filename);
    if checked.Err? {
      return Failed(checked.error), [], NotAttempted;
    }
    tried, delays := Retry(maxRetries, succeeds);
    match tried
    case Succeeded(_) => r := Done(checked.value);
    case Exhausted => r := Failed(StorageError);
    case NotAttempted => r := ReturnedNone;
  }

  /** secure_read_file: as the write, returning the content read.  The
      source runs `check == AsWritten`. */
  method SecureReadFile(check: PathCheck, cwd: seq<string>, baseDir: string, filename: string, maxRetries: int,
                        succeeds: nat -> bool, content: string) returns (r: Outcome<string>, delays: seq<nat>, tried: RetryOutcome)
    requires Canonical(cwd)
    ensures CheckPath(check, cwd, baseDir, filename).Err? ==>
              r == Failed(SecurityError(filename)) && delays == [] && tried == NotAttempted
    ensures CheckPath(check, cwd, baseDir, filename).Ok? ==>
              && (tried.Succeeded? <==> r == Done(content))
              && (tried.Exhausted? <==> r == Failed(StorageError))
              && (tried.NotAttempted? <==> r == ReturnedNone)
              && (r == ReturnedNone <==> maxRetries <= 0)
    ensures tried.Succeeded? ==> tried.attempt < maxRetries && succeeds(tried.attempt)
                                 && (forall j :: 0 <= j < tried.attempt ==> !succeeds(j))
                                 && delays == Backoff(tried.attempt)
    ensures CheckPath(check, cwd, baseDir, filename).Ok? ==>
              (tried.Exhausted? <==> maxRetries > 0 && forall j :: 0 <= j < maxRetries ==> !succeeds(j))
    ensures tried.Exhausted? ==> delays == Backoff(maxRetries - 1)
    ensures tried.NotAttempted? ==> delays == []
  {
    var checked := CheckPath(check, cwd, baseDir, filename);
    if checked.Err? {
      return Failed(checked.error), [], NotAttempted;
    }
    tried, delays := Retry(maxRetries, succeeds);
    match tried
    case Succeeded(_) => r := Done(content);
    case Exhausted => r := Failed(StorageError);
    case NotAttempted => r := ReturnedNone;
  }
}
