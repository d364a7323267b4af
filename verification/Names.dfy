/**
  File names in the inbox: which names are accepted, how a numbered alternative is built,
  and the two searches for a free one (`transfer.rs`, `inbox.rs`).
 */
module Names {
  import opened Prelude
  import Text

  datatype NameError = UnsafeName | NameRequired | NamesExhausted

  // ----- stem and extension of a single path component -----

  /** The position of the last dot, or -1. */
  function LastDot(s: string): (k: int)
    ensures -1 <= k < |s|
    ensures k >= 0 ==> s[k] == '.'
    ensures forall i :: k < i < |s| ==> s[i] != '.'
  {
    if s == [] then -1
    else if s[|s| - 1] == '.' then |s| - 1
    else LastDot(s[..|s| - 1])
  }

  /** `Path::file_stem`, with the caller's fallback for `.` and `..`. */
  function Stem(name: string, fallback: string): string {
    if name == "." || name == ".." then fallback
    else if LastDot(name) <= 0 then name
    else name[..LastDot(name)]
  }

  /** `Path::extension`. */
  function Extension(name: string): Option<string> {
    if name == "." || name == ".." || LastDot(name) <= 0 then None
    else Some(name[LastDot(name) + 1..])
  }

  /** `{stem} ({n}).{extension}`, or `{stem} ({n})` without an extension. */
  function Numbered(name: string, fallback: string, n: nat): string {
    var numbered := Stem(name, fallback) + " (" + Text.Decimal(n) + ")";
    match Extension(name)
    case Some(extension) => numbered + "." + extension
    case None => numbered
  }

  /** With an extension the number goes before its dot. */
  lemma NumberedBeforeExtension(stem: string, extension: string, fallback: string, n: nat)
    requires stem != [] && '.' !in extension && stem + "." + extension != ".."
    ensures Numbered(stem + "." + extension, fallback, n) == stem + " (" + Text.Decimal(n) + ")." + extension
  {
    var name := stem + "." + extension;
    var k := LastDot(name);
    assert name[|stem|] == '.';
    forall j | |stem| < j < |name| ensures name[j] != '.' {
      assert name[j] == extension[j - |stem| - 1] && extension[j - |stem| - 1] in extension;
    }
    assert name[..k] == stem && name[k + 1..] == extension;
    assert name[0] == stem[0] && (|name| == 1 ==> name != ".");
    assert stem + " (" + Text.Decimal(n) + ")" + "." + extension == stem + " (" + Text.Decimal(n) + ")." + extension;
  }

  /** Without one, also for a name that merely starts with a dot, it goes at the end. */
  lemma NumberedAtEnd(name: string, fallback: string, n: nat)
    requires name != "." && forall i :: 1 <= i < |name| ==> name[i] != '.'
    ensures Numbered(name, fallback, n) == name + " (" + Text.Decimal(n) + ")"
  {
    assert LastDot(name) <= 0;
    assert |name| == 2 ==> name[1] != '.';
  }

  lemma NumberedDigits(name: string, fallback: string, n: nat)
    ensures var s := Numbered(name, fallback, n);
            var from := |Stem(name, fallback)| + 2;
            var to := from + |Text.Decimal(n)|;
            && |s| == to + 1 + (if Extension(name).Some? then 1 + |Extension(name).value| else 0)
            && s[from..to] == Text.Decimal(n)
  {
    var pre := Stem(name, fallback) + " (";
    var post := ")" + if Extension(name).Some? then "." + Extension(name).value else "";
    assert Numbered(name, fallback, n) == pre + Text.Decimal(n) + post;
  }

  /** Numbered alternatives of one name are pairwise distinct. */
  lemma NumberedInjective(name: string, fallback: string, m: nat, n: nat)
    requires Numbered(name, fallback, m) == Numbered(name, fallback, n)
    ensures m == n
  {
    NumberedDigits(name, fallback, m);
    NumberedDigits(name, fallback, n);
    Text.DecimalInjective(m, n);
  }

  /** A numbered alternative is never the name itself. */
  lemma NumberedDiffers(name: string, fallback: string, n: nat)
    ensures Numbered(name, fallback, n) != name
  {
    NumberedDigits(name, fallback, n);
  }

  // ----- pigeonhole -----

  ghost predicate Injective(names: nat -> string) {
    forall m, n :: names(m) == names(n) ==> m == n
  }

  ghost function UpTo(names: nat -> string, k: nat): set<string> {
    if k == 0 then {} else UpTo(names, k - 1) + {names(k)}
  }

  lemma {:induction false} UpToCount(names: nat -> string, k: nat)
    requires Injective(names)
    ensures |UpTo(names, k)| == k && forall n: nat :: n > k ==> names(n) !in UpTo(names, k)
  {
    if k > 0 { UpToCount(names, k - 1); }
  }

  lemma {:induction false} UpToTaken(taken: set<string>, names: nat -> string, k: nat)
    requires forall n: nat :: 1 <= n <= k ==> names(n) in taken
    ensures UpTo(names, k) <= taken
  {
    if k > 0 { UpToTaken(taken, names, k - 1); }
  }

  lemma {:induction false} NotUpTo(names: nat -> string, name: string, k: nat)
    requires forall n: nat :: names(n) != name
    ensures name !in UpTo(names, k)
  {
    if k > 0 { NotUpTo(names, name, k - 1); }
  }

  lemma TakenCount(taken: set<string>, names: nat -> string, name: string, k: nat)
    requires Injective(names) && (forall n: nat :: names(n) != name)
    requires forall n: nat :: 1 <= n <= k ==> names(n) in taken
    ensures |taken| >= k && (name in taken ==> |taken| >= k + 1)
  {
    UpToCount(names, k);
    UpToTaken(taken, names, k);
    NotUpTo(names, name, k);
    SubsetSize(UpTo(names, k), taken);
    if name in taken { SubsetSize(UpTo(names, k) + {name}, taken); }
  }

  /** If the first `k` alternatives are taken, there are at least `k` entries, and one more with the name itself. */
  lemma Pigeonhole(taken: set<string>, name: string, fallback: string, k: nat)
    requires forall n: nat :: 1 <= n <= k ==> Numbered(name, fallback, n) in taken
    ensures |taken| >= k && (name in taken ==> |taken| >= k + 1)
  {
    var names := (n: nat) => Numbered(name, fallback, n);
    forall m, n | names(m) == names(n) ensures m == n { NumberedInjective(name, fallback, m, n); }
    forall n: nat ensures names(n) != name { NumberedDiffers(name, fallback, n); }
    TakenCount(taken, names, name, k);
  }

  // ----- the native receiver's search -----

  const NATIVE_LIMIT: nat := 9999

  const NATIVE_FALLBACK: string := "file"

  /** `safe_file_name`: separators and dot components are refused before trimming. */
  function SafeFileName(name: string): Result<string, NameError> {
    if '/' in name || '\\' in name || name == "." || name == ".." then Err(UnsafeName)
    else if Text.Trim(name) == [] then Err(NameRequired)
    else Ok(Text.Trim(name))
  }

  /**
    A name is usable exactly when it has no separator, is not a dot entry and is not blank; what
    is used is its trimmed form.
   */
  lemma SafeNameIff(name: string)
    ensures SafeFileName(name).Ok? <==>
            && (forall c :: c in name ==> c != '/' && c != '\\') && name != "." && name != ".."
            && exists c :: c in name && !Text.IsWhitespace(c)
    ensures SafeFileName(name).Ok? ==> SafeFileName(name).value == Text.Trim(name)
  {
    Text.BlankIff(name);
  }

  /** The name itself, then its numbered alternatives. */
  function Alternative(name: string, k: nat): string {
    if k == 0 then name else Numbered(name, NATIVE_FALLBACK, k)
  }

  function Alternatives(name: string): nat -> string { (k: nat) => Alternative(name, k) }

  /** The first of the alternatives from `n` on that does not exist, within the native limit. */
  function FirstFree(taken: set<string>, alternatives: nat -> string, n: nat): Option<string>
    decreases NATIVE_LIMIT + 1 - n
  {
    if n > NATIVE_LIMIT then None
    else if alternatives(n) !in taken then Some(alternatives(n))
    else FirstFree(taken, alternatives, n + 1)
  }

  /** The inbox name a file gets, given the names that exist. */
  function Allocate(taken: set<string>, fileName: string): Result<string, NameError> {
    var safe := SafeFileName(fileName);
    if safe.Err? then safe
    else match FirstFree(taken, Alternatives(safe.value), 0)
         case Some(name) => Ok(name)
         case None => Err(NamesExhausted)
  }

  /** `target` is the first of the alternatives, in order, that does not exist. */
  ghost predicate FirstAlternative(taken: set<string>, alternatives: nat -> string, target: string) {
    exists k: nat :: k <= NATIVE_LIMIT && target == alternatives(k) && FreeAt(taken, alternatives, k)
  }

  ghost predicate FreeAt(taken: set<string>, alternatives: nat -> string, k: nat) {
    alternatives(k) !in taken && forall j: nat :: j < k ==> alternatives(j) in taken
  }

  /** `target` is the file's own name or one of its numbered alternatives. */
  ghost predicate NamedAfter(target: string, fileName: string) {
    && SafeFileName(fileName).Ok?
    && exists k: nat :: k <= NATIVE_LIMIT && target == Alternative(SafeFileName(fileName).value, k)
  }

  /** `available_target_path`: probes the name, then alternatives 1 to 9999. */
  method AvailableTarget(taken: set<string>, fileName: string) returns (r: Result<string, NameError>)
    ensures r == Allocate(taken, fileName)
  {
    var safe := SafeFileName(fileName);
    if safe.Err? || safe.value !in taken { return safe; }
    ghost var alternatives := Alternatives(safe.value);
    for n := 1 to NATIVE_LIMIT + 1
      invariant FirstFree(taken, alternatives, 0) == FirstFree(taken, alternatives, n)
    {
      var name := Numbered(safe.value, NATIVE_FALLBACK, n);
      assert alternatives(n) == name;
      if name !in taken { return Ok(name); }
    }
    r := Err(NamesExhausted);
  }

  lemma {:induction false} FirstFreeSpec(taken: set<string>, alternatives: nat -> string, n: nat)
    requires n <= NATIVE_LIMIT + 1 && forall j: nat :: j < n ==> alternatives(j) in taken
    ensures match FirstFree(taken, alternatives, n)
            case Some(target) => FirstAlternative(taken, alternatives, target) && target !in taken
            case None => forall k: nat :: k <= NATIVE_LIMIT ==> alternatives(k) in taken
    decreases NATIVE_LIMIT + 1 - n
  {
    if n <= NATIVE_LIMIT {
      if alternatives(n) in taken {
        FirstFreeSpec(taken, alternatives, n + 1);
      } else {
        assert FreeAt(taken, alternatives, n);
      }
    }
  }

  lemma AllocateFresh(taken: set<string>, fileName: string)
    ensures Allocate(taken, fileName).Ok? ==> Allocate(taken, fileName).value !in taken
  {
    if SafeFileName(fileName).Ok? { FirstFreeSpec(taken, Alternatives(SafeFileName(fileName).value), 0); }
  }

  /**
    The native search gives a usable name its first alternative that does not exist, and it
    fails on a usable name exactly when the name and all its 9999 alternatives exist, which
    takes at least 10000 entries.
   */
  lemma NativeSearch(taken: set<string>, fileName: string)
    ensures Allocate(taken, fileName).Ok? ==>
              && Allocate(taken, fileName).value !in taken && NamedAfter(Allocate(taken, fileName).value, fileName)
              && FirstAlternative(taken, Alternatives(SafeFileName(fileName).value), Allocate(taken, fileName).value)
    ensures SafeFileName(fileName).Ok? ==>
              (Allocate(taken, fileName).Err? <==>
                 forall k: nat :: k <= NATIVE_LIMIT ==> Alternatives(SafeFileName(fileName).value)(k) in taken)
    ensures SafeFileName(fileName).Ok? && Allocate(taken, fileName).Err? ==> |taken| >= 10_000
  {
    if SafeFileName(fileName).Ok? {
      var safe := SafeFileName(fileName).value;
      FirstFreeSpec(taken, Alternatives(safe), 0);
      if Allocate(taken, fileName).Ok? {
        var k: nat :| k <= NATIVE_LIMIT && Allocate(taken, fileName).value == Alternatives(safe)(k);
        assert Allocate(taken, fileName).value == Alternative(safe, k);
      }
      if FirstFree(taken, Alternatives(safe), 0).None? { AllTaken(taken, safe); }
    }
  }

  lemma AllTaken(taken: set<string>, name: string)
    requires forall k: nat :: k <= NATIVE_LIMIT ==> Alternatives(name)(k) in taken
    ensures |taken| >= NATIVE_LIMIT + 1
  {
    assert Alternatives(name)(0) == name;
    forall k | 1 <= k <= NATIVE_LIMIT ensures Numbered(name, NATIVE_FALLBACK, k) in taken {
      assert Alternatives(name)(k) == Numbered(name, NATIVE_FALLBACK, k);
    }
    Pigeonhole(taken, name, NATIVE_FALLBACK, NATIVE_LIMIT);
  }

  // ----- the LocalSend inbox's search -----

  /** The name itself if it does not exist, else its first numbered alternative that does not. */
  ghost predicate FirstNumbered(taken: set<string>, fileName: string, target: string) {
    if fileName !in taken then target == fileName
    else exists n :: 1 <= n < TWO_32 && target == Numbered(fileName, fileName, n) && FreeFrom(taken, fileName, n)
  }

  ghost predicate FreeFrom(taken: set<string>, fileName: string, n: nat) {
    Numbered(fileName, fileName, n) !in taken && forall m :: 1 <= m < n ==> Numbered(fileName, fileName, m) in taken
  }

  /**
    `next_available_target`: suffixes count up in a `u32`; `None` is the overflow past its
    last value. For any directory smaller than the suffix range the result is absent and
    found within one more probe than there are entries.
   */
  method NextAvailableTarget(taken: set<string>, fileName: string) returns (r: Option<string>, probes: nat)
    ensures r.Some? ==> r.value !in taken
    ensures r.Some? ==> probes <= |taken| + 1
    ensures r.None? ==> |taken| >= TWO_32
    ensures r.Some? ==> FirstNumbered(taken, fileName, r.value)
  {
    probes := 1;
    if fileName !in taken { return Some(fileName), probes; }
    var suffix := 1;
    while suffix < TWO_32
      invariant 1 <= suffix <= TWO_32 && probes == suffix
      invariant forall n :: 1 <= n < suffix ==> Numbered(fileName, fileName, n) in taken
    {
      var candidate := Numbered(fileName, fileName, suffix);
      probes := probes + 1;
      if candidate !in taken {
        Pigeonhole(taken, fileName, fileName, suffix - 1);
        assert FreeFrom(taken, fileName, suffix);
        return Some(candidate), probes;
      }
      suffix := suffix + 1;
    }
    Pigeonhole(taken, fileName, fileName, TWO_32 - 1);
    r := None;
  }
}
