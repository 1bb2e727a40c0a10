/** The two wrapper shapes every script uses: a value that may be `undefined`,
    and a value or the Error a script throws. */
module Results {
  datatype Option<+T> = None | Some(value: T) {
    function GetOr(default: T): T {
      if Some? then value else default
    }
  }

  datatype Result<+T, +E> = Ok(value: T) | Err(error: E)
}

/** The JavaScript string built-ins the scripts call, on strings as `seq<char>`
    (`indexOf`, `includes`, `split`, `join`, `trim`, `toLowerCase`, `String(n)`,
    `Number(s)`, `replace` of the first match or of every copy of one
    character, and `filter`). */
module JsText {
  import opened Results

  /** `pat` occurs in `s` starting at index `i`. */
  predicate OccursAt<T(==)>(s: seq<T>, pat: seq<T>, i: int) {
    0 <= i && i + |pat| <= |s| && s[i..i + |pat|] == pat
  }

  /** `s.includes(pat)`. */
  predicate Includes<T(==)>(s: seq<T>, pat: seq<T>) {
    exists i | 0 <= i <= |s| - |pat| :: OccursAt(s, pat, i)
  }

  /** `s.indexOf(pat, from)`: the leftmost occurrence at or after `from`. */
  function IndexOfFrom<T(==)>(s: seq<T>, pat: seq<T>, from: nat): (r: Option<nat>)
    ensures r.Some? ==> from <= r.value && OccursAt(s, pat, r.value)
    ensures r.Some? ==> forall j | from <= j < r.value :: !OccursAt(s, pat, j)
    ensures r.None? ==> forall j | from <= j :: !OccursAt(s, pat, j)
    decreases |s| - from
  {
    if from + |pat| > |s| then None
    else if s[from..from + |pat|] == pat then Some(from)
    else IndexOfFrom(s, pat, from + 1)
  }

  /** `s.indexOf(pat)`; it finds something exactly when `s.includes(pat)`. */
  function IndexOf<T(==)>(s: seq<T>, pat: seq<T>): (r: Option<nat>)
    ensures r.Some? <==> Includes(s, pat)
    ensures r.Some? ==> OccursAt(s, pat, r.value) && forall j | 0 <= j < r.value :: !OccursAt(s, pat, j)
  {
    IndexOfFrom(s, pat, 0)
  }

  lemma IncludesAt<T>(s: seq<T>, pat: seq<T>, i: int)
    requires OccursAt(s, pat, i)
    ensures Includes(s, pat)
  {
  }

  /** Text placed around a string that mentions `pat` still mentions it. */
  lemma IncludesInside<T>(a: seq<T>, b: seq<T>, c: seq<T>, pat: seq<T>)
    requires Includes(b, pat)
    ensures Includes(a + b + c, pat)
  {
    var i :| 0 <= i <= |b| - |pat| && OccursAt(b, pat, i);
    assert (a + b + c)[|a| + i..|a| + i + |pat|] == b[i..i + |pat|];
    IncludesAt(a + b + c, pat, |a| + i);
  }

  /** `parts.join(sep)`. */
  function Join(parts: seq<string>, sep: string): string {
    if |parts| == 0 then ""
    else if |parts| == 1 then parts[0]
    else parts[0] + sep + Join(parts[1..], sep)
  }

  lemma JoinCons(x: string, rest: seq<string>, sep: string)
    requires |rest| >= 1
    ensures Join([x] + rest, sep) == x + sep + Join(rest, sep)
  {
    assert ([x] + rest)[1..] == rest;
  }

  /** A prefix that ends before the leftmost occurrence holds no occurrence. */
  lemma NoOccurrenceBefore<T>(s: seq<T>, pat: seq<T>, i: nat)
    requires i <= |s| && |pat| > 0
    requires forall j | 0 <= j < i :: !OccursAt(s, pat, j)
    ensures !Includes(s[..i], pat)
  {
    forall j | 0 <= j <= i - |pat|
      ensures !OccursAt(s[..i], pat, j)
    {
      assert !OccursAt(s, pat, j);
      assert s[..i][j..j + |pat|] == s[j..j + |pat|];
    }
  }

  /** `s.split(sep)` for a non-empty separator: cut at every leftmost,
      non-overlapping occurrence. Joining the pieces back gives `s`. */
  function Split(s: string, sep: string): (r: seq<string>)
    requires |sep| > 0
    ensures |r| >= 1
    ensures Join(r, sep) == s
    ensures forall k | 0 <= k < |r| :: !Includes(r[k], sep)
    ensures |r| == 1 <==> !Includes(s, sep)
    decreases |s|
  {
    match IndexOf(s, sep)
    case None => [s]
    case Some(i) =>
      var rest := Split(s[i + |sep|..], sep);
      SplitStep(s, sep, i, rest);
      [s[..i]] + rest
  }

  lemma SplitStep(s: string, sep: string, i: nat, rest: seq<string>)
    requires |sep| > 0 && IndexOf(s, sep) == Some(i)
    requires |rest| >= 1 && Join(rest, sep) == s[i + |sep|..]
    requires forall k | 0 <= k < |rest| :: !Includes(rest[k], sep)
    ensures Join([s[..i]] + rest, sep) == s
    ensures forall k | 0 <= k < |rest| + 1 :: !Includes(([s[..i]] + rest)[k], sep)
  {
    assert OccursAt(s, sep, i);
    SplitJoinStep(s, sep, i, rest);
    var r := [s[..i]] + rest;
    forall k | 0 <= k < |r|
      ensures !Includes(r[k], sep)
    {
      if k == 0 {
        NoOccurrenceBefore(s, sep, i);
      } else {
        assert r[k] == rest[k - 1];
      }
    }
  }

  lemma SplitJoinStep(s: string, sep: string, i: nat, rest: seq<string>)
    requires OccursAt(s, sep, i)
    requires |rest| >= 1 && Join(rest, sep) == s[i + |sep|..]
    ensures Join([s[..i]] + rest, sep) == s
  {
    JoinCons(s[..i], rest, sep);
    CutAt(s, sep, i);
  }

  /** An occurrence cuts the string into what precedes it, itself and what follows. */
  lemma CutAt<T>(s: seq<T>, pat: seq<T>, i: nat)
    requires OccursAt(s, pat, i)
    ensures s == s[..i] + pat + s[i + |pat|..]
  {
    assert s == s[..i] + s[i..i + |pat|] + s[i + |pat|..];
  }

  /** The leftmost occurrence is where `indexOf` stops. */
  lemma IndexOfIsLeftmost<T>(s: seq<T>, pat: seq<T>, i: nat)
    requires OccursAt(s, pat, i) && forall j | 0 <= j < i :: !OccursAt(s, pat, j)
    ensures IndexOf(s, pat) == Some(i)
  {
    IncludesAt(s, pat, i);
  }

  /** Splitting undoes joining: with a one-character separator that no piece
      contains, `parts.join(sep).split(sep)` gives the pieces back. */
  lemma {:induction false} SplitJoin(parts: seq<string>, sep: string)
    requires |sep| == 1 && |parts| >= 1
    requires forall k | 0 <= k < |parts| :: !Includes(parts[k], sep)
    ensures Split(Join(parts, sep), sep) == parts
  {
    var s := Join(parts, sep);
    if |parts| == 1 {
      assert IndexOf(s, sep).None?;
    } else {
      var p0, rest := parts[0], parts[1..];
      assert s == p0 + sep + Join(rest, sep);
      FirstPiece(p0, sep, Join(rest, sep));
      SplitJoin(rest, sep);
      assert parts == [p0] + rest;
    }
  }

  /** A piece without the separator is cut off at the separator after it. */
  lemma FirstPiece(p0: string, sep: string, tail: string)
    requires |sep| == 1 && !Includes(p0, sep)
    ensures IndexOf(p0 + sep + tail, sep) == Some(|p0|)
    ensures (p0 + sep + tail)[..|p0|] == p0 && (p0 + sep + tail)[|p0| + 1..] == tail
  {
    var s := p0 + sep + tail;
    assert s[|p0|..|p0| + 1] == sep;
    forall j | 0 <= j < |p0|
      ensures !OccursAt(s, sep, j)
    {
      if OccursAt(s, sep, j) {
        assert p0[j..j + 1] == s[j..j + 1];
        IncludesAt(p0, sep, j);
      }
    }
    IndexOfIsLeftmost(s, sep, |p0|);
  }

  /** `(x + sep + y).split(sep)` is `[x, y]` when neither piece holds the separator. */
  lemma SplitPair(x: string, y: string, sep: string)
    requires |sep| == 1 && !Includes(x, sep) && !Includes(y, sep)
    ensures Split(x + sep + y, sep) == [x, y]
  {
    var parts := [x, y];
    assert forall k | 0 <= k < |parts| :: !Includes(parts[k], sep) by {
      assert parts[0] == x && parts[1] == y;
    }
    JoinCons(x, [y], sep);
    assert [x] + [y] == parts;
    SplitJoin(parts, sep);
  }

  /** `(x + sep + y + sep + z).split(sep)` is `[x, y, z]` when no piece holds the separator. */
  lemma SplitTriple(x: string, y: string, z: string, sep: string)
    requires |sep| == 1 && !Includes(x, sep) && !Includes(y, sep) && !Includes(z, sep)
    ensures Split(x + sep + y + sep + z, sep) == [x, y, z]
  {
    var parts := [x, y, z];
    assert forall k | 0 <= k < |parts| :: !Includes(parts[k], sep) by {
      assert parts[0] == x && parts[1] == y && parts[2] == z;
    }
    JoinTriple(x, y, z, sep);
    SplitJoin(parts, sep);
  }

  lemma JoinTriple(x: string, y: string, z: string, sep: string)
    ensures Join([x, y, z], sep) == x + sep + y + sep + z
  {
    JoinCons(y, [z], sep);
    JoinCons(x, [y, z], sep);
    assert [y] + [z] == [y, z] && [x] + [y, z] == [x, y, z];
    assert x + sep + y + sep + z == x + sep + (y + sep + z);
  }

  /** A one-character pattern found in neither half is not found in the whole. */
  lemma ConcatExcludes(a: string, b: string, pat: string)
    requires |pat| == 1 && !Includes(a, pat) && !Includes(b, pat)
    ensures !Includes(a + b, pat)
  {
    var s := a + b;
    forall i | 0 <= i <= |s| - 1
      ensures !OccursAt(s, pat, i)
    {
      if OccursAt(s, pat, i) {
        if i < |a| {
          assert a[i..i + 1] == s[i..i + 1];
          IncludesAt(a, pat, i);
        } else {
          assert b[i - |a|..i - |a| + 1] == s[i..i + 1];
          IncludesAt(b, pat, i - |a|);
        }
      }
    }
  }

  /** A one-character pattern is found only where its character occurs. */
  lemma AbsentCharNotIncluded(s: string, c: char)
    requires c !in s
    ensures !Includes(s, [c])
  {
    forall i | 0 <= i <= |s| - 1
      ensures !OccursAt(s, [c], i)
    {
      assert s[i] in s;
      assert s[i..i + 1][0] == s[i];
    }
  }

  /** A digit string never contains a separator that is not a digit. */
  lemma DigitsExclude(s: string, sep: string)
    requires AllDigits(s) && |sep| == 1 && !IsDigit(sep[0])
    ensures !Includes(s, sep)
  {
  }

  /** A JavaScript white-space or line-terminator character, as `trim` and `\s` see them. */
  predicate IsSpace(c: char) {
    || IsLineTerminator(c)
    || c == '\t' || c == '\U{B}' || c == '\U{C}' || c == ' ' || c == '\U{A0}'
    || c == '\U{1680}' || ('\U{2000}' <= c <= '\U{200A}')
    || c == '\U{202F}' || c == '\U{205F}' || c == '\U{3000}' || c == '\U{FEFF}'
  }

  /** The characters a regular-expression `.` does not match. */
  predicate IsLineTerminator(c: char) {
    c == '\n' || c == '\r' || c == '\U{2028}' || c == '\U{2029}'
  }

  predicate AllSpace(s: string) {
    forall i | 0 <= i < |s| :: IsSpace(s[i])
  }

  /** `s.trimStart()`: drops the longest all-space prefix. */
  function TrimStart(s: string): (r: string)
    ensures |r| <= |s| && r == s[|s| - |r|..]
    ensures AllSpace(s[..|s| - |r|])
    ensures r == [] || !IsSpace(r[0])
  {
    if s != [] && IsSpace(s[0]) then
      var t := s[1..];
      var r := TrimStart(t);
      assert s[|s| - |r|..] == t[|t| - |r|..];
      var dropped, rest := s[..|s| - |r|], t[..|t| - |r|];
      assert forall i | 1 <= i < |dropped| :: dropped[i] == rest[i - 1];
      r
    else s
  }

  /** `s.trimEnd()`: drops the longest all-space suffix. */
  function TrimEnd(s: string): (r: string)
    ensures |r| <= |s| && r == s[..|r|]
    ensures AllSpace(s[|r|..])
    ensures r == [] || !IsSpace(r[|r| - 1])
  {
    if s != [] && IsSpace(s[|s| - 1]) then TrimEnd(s[..|s| - 1]) else s
  }

  /** `s.trim()`. */
  function Trim(s: string): string {
    TrimEnd(TrimStart(s))
  }

  lemma {:induction false} TrimStartEmpty(s: string)
    ensures TrimStart(s) == [] <==> AllSpace(s)
  {
    if s != [] && IsSpace(s[0]) {
      TrimStartEmpty(s[1..]);
      assert AllSpace(s) <==> AllSpace(s[1..]) by {
        assert forall i | 1 <= i < |s| :: s[i] == s[1..][i - 1];
      }
    }
  }

  lemma {:induction false} TrimEndEmpty(s: string)
    ensures TrimEnd(s) == [] <==> AllSpace(s)
  {
    if s != [] && IsSpace(s[|s| - 1]) {
      TrimEndEmpty(s[..|s| - 1]);
      assert AllSpace(s) <==> AllSpace(s[..|s| - 1]) by {
        assert forall i | 0 <= i < |s| - 1 :: s[i] == s[..|s| - 1][i];
      }
    }
  }

  /** A string trims to nothing exactly when it is all white space. */
  lemma TrimEmptyIffAllSpace(s: string)
    ensures Trim(s) == [] <==> AllSpace(s)
  {
    TrimStartEmpty(s);
    TrimEndEmpty(TrimStart(s));
  }

  /** Leading white space does not change what a string trim-starts to. */
  lemma {:induction false} TrimStartSkipsSpace(p: string, s: string)
    requires AllSpace(p)
    ensures TrimStart(p + s) == TrimStart(s)
  {
    if p != [] {
      assert (p + s)[0] == p[0];
      assert (p + s)[1..] == p[1..] + s;
      TrimStartSkipsSpace(p[1..], s);
    } else {
      assert p + s == s;
    }
  }

  /** Leading white space does not change what a string trims to. */
  lemma TrimSkipsLeadingSpace(p: string, s: string)
    requires AllSpace(p)
    ensures Trim(p + s) == Trim(s)
  {
    TrimStartSkipsSpace(p, s);
  }

  /** The ASCII case mapping of `toLowerCase`. */
  function LowerChar(c: char): char {
    if 'A' <= c <= 'Z' then (c as int + 32) as char else c
  }

  /** `s.toLowerCase()` on ASCII letters. */
  function ToLower(s: string): (r: string)
    ensures |r| == |s|
    ensures forall i | 0 <= i < |s| :: r[i] == LowerChar(s[i]) && !('A' <= r[i] <= 'Z')
  {
    if s == [] then [] else [LowerChar(s[0])] + ToLower(s[1..])
  }

  /** Lower-casing twice is lower-casing once. */
  lemma ToLowerIdempotent(s: string)
    ensures ToLower(ToLower(s)) == ToLower(s)
  {
    var t := ToLower(s);
    assert forall i | 0 <= i < |t| :: LowerChar(t[i]) == t[i];
  }

  predicate IsDigit(c: char) {
    '0' <= c <= '9'
  }

  predicate AllDigits(s: string) {
    forall i | 0 <= i < |s| :: IsDigit(s[i])
  }

  /** The value of a run of decimal digits (the empty run is 0). */
  function DigitsValue(s: string): nat
    requires AllDigits(s)
  {
    if s == [] then 0 else DigitsValue(s[..|s| - 1]) * 10 + (s[|s| - 1] as int - '0' as int)
  }

  function DigitChar(d: nat): (c: char)
    requires d < 10
    ensures IsDigit(c) && c as int - '0' as int == d
  {
    ('0' as int + d) as char
  }

  /** `String(n)` for a natural number: decimal, no leading zeros. */
  function NatToString(n: nat): (r: string)
    ensures r != [] && AllDigits(r) && DigitsValue(r) == n
    ensures |r| > 1 ==> r[0] != '0'
  {
    if n < 10 then [DigitChar(n)]
    else
      var r := NatToString(n / 10) + [DigitChar(n % 10)];
      assert r[..|r| - 1] == NatToString(n / 10);
      r
  }

  /** `String(i)` for an integer. */
  function IntToString(i: int): string {
    if i < 0 then "-" + NatToString(-i) else NatToString(i)
  }

  /** The longest prefix of `s` made of digits (what a greedy `\d*` takes). */
  function LeadingDigits(s: string): (r: string)
    ensures |r| <= |s| && r == s[..|r|] && AllDigits(r)
    ensures |r| == |s| || !IsDigit(s[|r|])
  {
    if s != [] && IsDigit(s[0]) then
      var r := [s[0]] + LeadingDigits(s[1..]);
      assert r[1..] == LeadingDigits(s[1..]);
      r
    else []
  }

  /** Digits followed by a non-digit are the leading digits. */
  lemma LeadingDigitsOf(digits: string, tail: string)
    requires AllDigits(digits) && tail != [] && !IsDigit(tail[0])
    ensures LeadingDigits(digits + tail) == digits
  {
    var s := digits + tail;
    assert s[..|digits|] == digits;
    assert |LeadingDigits(s)| == |digits|;
  }

  /** `Number(s)` for the strings a command line or a split gives here:
      blank is 0, decimal digits are their value, anything else is NaN (`None`). */
  function StringToNumber(s: string): Option<nat> {
    var t := Trim(s);
    if t == [] then Some(0)
    else if AllDigits(t) then Some(DigitsValue(t))
    else None
  }

  /** `Number(String(n)) == n`. */
  lemma NumberOfNatToString(n: nat)
    ensures StringToNumber(NatToString(n)) == Some(n)
  {
    var s := NatToString(n);
    assert IsDigit(s[0]) && IsDigit(s[|s| - 1]);
    TrimUnspaced(s);
  }

  /** A string that starts and ends with a non-space character is its own trim. */
  lemma TrimUnspaced(s: string)
    requires s != [] && !IsSpace(s[0]) && !IsSpace(s[|s| - 1])
    ensures Trim(s) == s
  {
    assert TrimStart(s) == s;
    assert TrimEnd(s) == s;
  }

  /** `xs.filter(keep)`. */
  function Filter<T>(xs: seq<T>, keep: T -> bool): seq<T> {
    if xs == [] then []
    else
      var last := xs[|xs| - 1];
      Filter(xs[..|xs| - 1], keep) + if keep(last) then [last] else []
  }

  /** The filter keeps listing order: it distributes over concatenation. */
  lemma {:induction false} FilterKeepsOrder<T>(a: seq<T>, b: seq<T>, keep: T -> bool)
    ensures Filter(a + b, keep) == Filter(a, keep) + Filter(b, keep)
    decreases |b|
  {
    if b == [] {
      assert a + b == a;
    } else {
      var init := b[..|b| - 1];
      FilterKeepsOrder(a, init, keep);
      assert (a + b)[..|a + b| - 1] == a + init;
    }
  }

  /** An element is kept exactly when it passes the test. */
  lemma {:induction false} FilterMembership<T>(xs: seq<T>, keep: T -> bool, x: T)
    ensures x in Filter(xs, keep) <==> x in xs && keep(x)
  {
    if xs != [] {
      var init := xs[..|xs| - 1];
      FilterMembership(init, keep, x);
      assert xs == init + [xs[|xs| - 1]];
    }
  }

  /** `s.replace(pat, rep)` with a string pattern: only the leftmost
      occurrence is replaced (for a `rep` holding no `$` pattern). */
  function ReplaceFirst(s: string, pat: string, rep: string): string {
    match IndexOf(s, pat)
    case None => s
    case Some(i) => s[..i] + rep + s[i + |pat|..]
  }

  /** `s.replace(/<from>/g, to)` for a single character. */
  function ReplaceChar(s: string, from: char, to: char): (r: string)
    ensures |r| == |s|
    ensures forall i | 0 <= i < |s| :: r[i] == (if s[i] == from then to else s[i])
  {
    if s == [] then [] else [if s[0] == from then to else s[0]] + ReplaceChar(s[1..], from, to)
  }
}

/** Node's POSIX `path.basename` and `path.extname` on already-resolved paths
    (absolute, normalised, no trailing separator). */
module PosixPath {
  import opened Results
  import opened JsText

  /** The index of the last `c` in `s`. */
  function LastIndexOf(s: string, c: char): (r: Option<nat>)
    ensures r.Some? ==> r.value < |s| && s[r.value] == c && forall j | r.value < j < |s| :: s[j] != c
    ensures r.None? ==> forall j | 0 <= j < |s| :: s[j] != c
  {
    if s == [] then None
    else if s[|s| - 1] == c then Some(|s| - 1)
    else LastIndexOf(s[..|s| - 1], c)
  }

  /** The last path component. */
  function Basename(p: string): (r: string)
    ensures '/' !in r
    ensures '/' !in p ==> r == p
  {
    match LastIndexOf(p, '/')
    case None => p
    case Some(i) =>
      var r := p[i + 1..];
      assert forall j | 0 <= j < |r| :: r[j] == p[i + 1 + j];
      r
  }

  /** `path.extname(p)`: from the last `.` of the last component, except when
      that dot opens the component (".bashrc") or the component is "..". */
  function Extname(p: string): (r: string)
    ensures r == [] || (r[0] == '.' && '.' !in r[1..])
    ensures |r| < |Basename(p)| || r == []
    ensures r == Basename(p)[|Basename(p)| - |r|..]
  {
    var b := Basename(p);
    match LastIndexOf(b, '.')
    case None => ""
    case Some(d) =>
      if d == 0 || b == ".." then ""
      else
        var r := b[d..];
        assert forall j | 0 <= j < |r| - 1 :: r[1..][j] == b[d + 1 + j];
        r
  }

  /** A name made of a stem, a dot and a dot-free extension has that extension. */
  lemma ExtnameOfName(stem: string, ext: string)
    requires stem != [] && ext != [] && '.' !in ext && '/' !in stem && '/' !in ext
    ensures Extname(stem + "." + ext) == "." + ext
  {
    var name := stem + "." + ext;
    assert '/' !in name;
    assert name[|stem|] == '.';
    assert forall j | |stem| < j < |name| :: name[j] == ext[j - |stem| - 1];
    assert LastIndexOf(name, '.') == Some(|stem|);
    assert name[|stem|..] == "." + ext;
  }

  /** `path.basename(p, path.extname(p))`: the last component without its extension. */
  function Stem(p: string): string {
    var b := Basename(p);
    b[..|b| - |Extname(p)|]
  }

  /** `path.join(dir, name)` for a resolved directory and a directory entry. */
  function JoinPath(dir: string, name: string): string {
    if |dir| > 0 && dir[|dir| - 1] == '/' then dir + name else dir + "/" + name
  }

  /** Joining an entry name onto a directory keeps the entry as the last component,
      so the joined path has the entry's extension. */
  lemma {:induction false} ExtnameOfJoin(dir: string, name: string)
    requires '/' !in name
    ensures Basename(JoinPath(dir, name)) == name
    ensures Extname(JoinPath(dir, name)) == Extname(name)
  {
    var p := JoinPath(dir, name);
    var k := |p| - |name| - 1;
    assert p[k] == '/';
    assert p[k + 1..] == name;
    assert forall j | k < j < |p| :: p[j] != '/' by {
      forall j | k < j < |p| ensures p[j] != '/' {
        assert p[j] == name[j - k - 1];
      }
    }
    assert LastIndexOf(p, '/') == Some(k);
  }
}
