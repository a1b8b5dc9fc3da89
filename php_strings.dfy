/** The PHP string built-ins that `Request` relies on, over character
    sequences: `mb_strpos`, `mb_substr`/`substr` with a non-negative start,
    `dirname` on `/`-separated paths, the `(int)` cast of a decimal string
    and `%d` formatting of a non-negative integer.

    Strings are sequences of characters; the multibyte and byte-based
    functions of PHP agree on them (they differ only on non-ASCII input,
    which is not modelled). */
module PhpStrings {
  import opened Wrappers

  /** `needle` occurs in `s` starting at index `i`. */
  predicate OccursAt(s: string, needle: string, i: nat) {
    i + |needle| <= |s| && s[i..i + |needle|] == needle
  }

  /** `needle` occurs somewhere in `s`. */
  ghost predicate Contains(s: string, needle: string) {
    exists i: nat :: OccursAt(s, needle, i)
  }

  /** `needle` is a prefix of `s`. */
  predicate StartsWith(s: string, needle: string) {
    |needle| <= |s| && s[..|needle|] == needle
  }

  /** `suffix` is a suffix of `s`. */
  predicate EndsWith(s: string, suffix: string) {
    |suffix| <= |s| && s[|s| - |suffix|..] == suffix
  }

  /** The first occurrence of `needle` in `s` at or after `from`. */
  function IndexFrom(s: string, needle: string, from: nat): (r: Option<nat>)
    decreases |s| - from
    ensures r.Some? ==> from <= r.value && OccursAt(s, needle, r.value)
    ensures r.Some? ==> forall j: nat :: from <= j < r.value ==> !OccursAt(s, needle, j)
    ensures r.None? ==> forall j: nat :: from <= j ==> !OccursAt(s, needle, j)
  {
    if |s| < from + |needle| then None
    else if s[from..from + |needle|] == needle then Some(from)
    else IndexFrom(s, needle, from + 1)
  }

  /** `mb_strpos($s, $needle)`: the index of the first occurrence of
      `needle` in `s`, or `None` (PHP `false`) when there is none.
      An empty needle is found at 0, as in PHP 8. */
  function IndexOf(s: string, needle: string): (r: Option<nat>)
    ensures r.Some? <==> Contains(s, needle)
    ensures r.Some? ==> OccursAt(s, needle, r.value)
    ensures r.Some? ==> forall j: nat :: j < r.value ==> !OccursAt(s, needle, j)
    ensures r == Some(0) <==> StartsWith(s, needle)
  {
    var r := IndexFrom(s, needle, 0);
    assert OccursAt(s, needle, 0) <==> StartsWith(s, needle);
    r
  }

  /** `mb_substr($s, $start)` and `substr($s, $start)` for `$start >= 0`:
      the characters from `start` on, or `""` when `start` is past the end. */
  function Tail(s: string, start: nat): (r: string)
    ensures EndsWith(s, r)
    ensures start <= |s| ==> |r| == |s| - start && s[..start] + r == s
    ensures start > |s| ==> r == ""
  {
    if start <= |s| then s[start..] else ""
  }

  /** `s` with its trailing slashes removed. */
  function TrimTrailingSlashes(s: string): (r: string)
    ensures StartsWith(s, r)
    ensures r == "" || r[|r| - 1] != '/'
    ensures forall i :: |r| <= i < |s| ==> s[i] == '/'
  {
    if s != "" && s[|s| - 1] == '/' then TrimTrailingSlashes(s[..|s| - 1]) else s
  }

  /** `s` with its last path segment (the characters after the last slash)
      removed; the slash itself is kept. */
  function DropLastSegment(s: string): (r: string)
    ensures StartsWith(s, r)
    ensures r == "" || r[|r| - 1] == '/'
    ensures forall i :: |r| <= i < |s| ==> s[i] != '/'
  {
    if s != "" && s[|s| - 1] != '/' then DropLastSegment(s[..|s| - 1]) else s
  }

  /** PHP's `dirname($path)` for `/`-separated paths: strip trailing
      slashes, drop the last segment, strip the slashes before it; `"/"`
      when only slashes were left, `"."` when there was no slash at all,
      and `""` for the empty path. Every result is one of `""` (empty path),
      `"."` (a relative path without a directory part), `"/"` (the root),
      or a proper prefix of `path` that does not end in a slash and is
      followed in `path` by a slash. */
  function Dirname(path: string): (dir: string)
    ensures
      || (dir == "" && path == "")
      || (dir == "." && path != "" && path[0] != '/')
      || dir == "/"
      || (0 < |dir| < |path| && StartsWith(path, dir) && dir[|dir| - 1] != '/' && path[|dir|] == '/')
  {
    if path == "" then ""
    else
      var trimmed := TrimTrailingSlashes(path);
      if trimmed == "" then "/"
      else
        var parent := DropLastSegment(trimmed);
        if parent == "" then "."
        else
          var dir := TrimTrailingSlashes(parent);
          if dir == "" then "/" else dir
  }

  /** An absolute path has an absolute directory. */
  lemma DirnameOfAbsolute(path: string)
    requires path != "" && path[0] == '/'
    ensures var d := Dirname(path); d != "" && d[0] == '/'
  {
  }

  predicate AllSlashes(s: string) {
    forall i :: 0 <= i < |s| ==> s[i] == '/'
  }

  predicate NoSlash(s: string) {
    forall i :: 0 <= i < |s| ==> s[i] != '/'
  }

  /** Trimming removes exactly the trailing run of slashes. */
  lemma TrimTrailingSlashesOf(s: string, slashes: string)
    requires s == "" || s[|s| - 1] != '/'
    requires AllSlashes(slashes)
    ensures TrimTrailingSlashes(s + slashes) == s
  {
    var path := s + slashes;
    var r := TrimTrailingSlashes(path);
    assert |s| <= |r| by {
      if s != "" {
        assert path[|s| - 1] != '/';
      }
    }
    assert |r| <= |s| by {
      assert forall i :: |s| <= i < |path| ==> path[i] == slashes[i - |s|];
      if r != "" {
        assert r[|r| - 1] == path[|r| - 1];
      }
    }
    assert r == path[..|s|];
  }

  /** Dropping the last segment removes exactly the slash-free tail. */
  lemma DropLastSegmentOf(s: string, name: string)
    requires s == "" || s[|s| - 1] == '/'
    requires NoSlash(name)
    ensures DropLastSegment(s + name) == s
  {
    var path := s + name;
    var r := DropLastSegment(path);
    assert |s| <= |r| by {
      if s != "" {
        assert path[|s| - 1] == '/';
      }
    }
    assert |r| <= |s| by {
      assert forall i :: |s| <= i < |path| ==> path[i] == name[i - |s|];
      if r != "" {
        assert r[|r| - 1] == path[|r| - 1];
      }
    }
    assert r == path[..|s|];
  }

  /** `dirname` of a path ending in a named entry (followed by any number
      of slashes) is the part before the slashes that precede the name:
      `dir` itself, `"/"` when that part is empty. */
  lemma DirnameOfEntry(dir: string, separator: string, name: string, slashes: string)
    requires dir == "" || dir[|dir| - 1] != '/'
    requires separator != "" && AllSlashes(separator)
    requires name != "" && NoSlash(name) && AllSlashes(slashes)
    ensures Dirname(dir + separator + name + slashes) == if dir == "" then "/" else dir
  {
    var path := dir + separator + name + slashes;
    assert path == (dir + separator + name) + slashes;
    TrimTrailingSlashesOf(dir + separator + name, slashes);
    DropLastSegmentOf(dir + separator, name);
    TrimTrailingSlashesOf(dir, separator);
  }

  /** `dirname` of a relative name (followed by any number of slashes) is `"."`. */
  lemma DirnameOfRelativeName(name: string, slashes: string)
    requires name != "" && NoSlash(name) && AllSlashes(slashes)
    ensures Dirname(name + slashes) == "."
  {
    TrimTrailingSlashesOf(name, slashes);
    assert name == "" + name;
    DropLastSegmentOf("", name);
  }

  /** `dirname` of a path made only of slashes is `"/"`. */
  lemma DirnameOfSlashes(slashes: string)
    requires slashes != "" && AllSlashes(slashes)
    ensures Dirname(slashes) == "/"
  {
  }

  predicate IsDigit(c: char) {
    '0' <= c <= '9'
  }

  predicate AllDigits(s: string) {
    forall i :: 0 <= i < |s| ==> IsDigit(s[i])
  }

  /** The longest prefix of `s` made of decimal digits. */
  function LeadingDigits(s: string): (r: string)
    ensures StartsWith(s, r) && AllDigits(r)
    ensures |r| < |s| ==> !IsDigit(s[|r|])
  {
    if s != "" && IsDigit(s[0]) then [s[0]] + LeadingDigits(s[1..]) else ""
  }

  /** The value of a string of decimal digits. */
  function DigitsValue(d: string): nat
    requires AllDigits(d)
  {
    if d == "" then 0 else DigitsValue(d[..|d| - 1]) * 10 + (d[|d| - 1] as int - '0' as int)
  }

  /** The leading digits of `digits + rest` are `digits` when `rest` does
      not start with a digit. */
  lemma LeadingDigitsOf(digits: string, rest: string)
    requires AllDigits(digits)
    requires rest == "" || !IsDigit(rest[0])
    ensures LeadingDigits(digits + rest) == digits
  {
    var s := digits + rest;
    var r := LeadingDigits(s);
    assert |digits| <= |r| by {
      assert forall i :: 0 <= i < |digits| ==> s[i] == digits[i];
    }
    assert |r| <= |digits| by {
      assert rest != "" ==> s[|digits|] == rest[0];
      assert forall i :: 0 <= i < |r| ==> r[i] == s[i];
    }
    assert r == s[..|digits|];
  }

  /** PHP's `(int)` cast of a string that starts with decimal digits: the
      value of those leading digits, 0 when there are none. */
  function PhpIntCast(s: string): (n: nat)
    ensures AllDigits(s) ==> n == DigitsValue(s)
    ensures s == "" || !IsDigit(s[0]) ==> n == 0
  {
    assert AllDigits(s) ==> s + "" == s;
    if AllDigits(s) then LeadingDigitsOf(s, ""); DigitsValue(LeadingDigits(s))
    else DigitsValue(LeadingDigits(s))
  }

  /** The cast reads the leading digits and ignores whatever follows them
      (the cast of `"80abc"` is 80). */
  lemma PhpIntCastIgnoresRest(digits: string, rest: string)
    requires AllDigits(digits)
    requires rest == "" || !IsDigit(rest[0])
    ensures PhpIntCast(digits + rest) == DigitsValue(digits)
  {
    LeadingDigitsOf(digits, rest);
  }

  /** PHP's `%d` formatting of a non-negative integer: decimal digits with
      no leading zero. */
  function DecimalString(n: nat): (r: string)
    ensures r != "" && AllDigits(r)
    ensures n > 0 ==> r[0] != '0'
    ensures n < 10 <==> |r| == 1
  {
    if n < 10 then [('0' as int + n) as char]
    else DecimalString(n / 10) + [('0' as int + n % 10) as char]
  }

  /** Reading back a formatted number gives the number. This and
      `DecimalRoundTrip` check that the models of `%d` and of `(int)` agree;
      `Request` itself only formats a value it has cast. */
  lemma {:induction false} DecimalValue(n: nat)
    ensures DigitsValue(DecimalString(n)) == n
  {
    if n >= 10 {
      var d := DecimalString(n);
      assert d[..|d| - 1] == DecimalString(n / 10);
      DecimalValue(n / 10);
    }
  }

  /** `(int)` of the `%d` text of a number is that number. */
  lemma DecimalRoundTrip(n: nat)
    ensures PhpIntCast(DecimalString(n)) == n
  {
    DecimalValue(n);
  }
}
