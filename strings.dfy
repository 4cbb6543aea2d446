/** The PHP string functions the plugins use, over `seq<char>` (one char per byte). */
module Strings {
  import opened Php

  /** `sub` occurs in `s` at index `i`. */
  predicate OccursAt(s: string, sub: string, i: int) {
    0 <= i && i + |sub| <= |s| && s[i..i + |sub|] == sub
  }

  /** strpos with an offset: the leftmost occurrence at or after `from`; None stands for FALSE. */
  function Strpos(s: string, sub: string, from: nat): (r: Option<nat>)
    ensures r.Some? ==> from <= r.value && OccursAt(s, sub, r.value)
    ensures r.Some? ==> forall j :: from <= j < r.value ==> !OccursAt(s, sub, j)
    ensures r.None? ==> forall j :: from <= j ==> !OccursAt(s, sub, j)
    decreases |s| - from
  {
    if OccursAt(s, sub, from) then Some(from)
    else if |s| <= from + |sub| then None
    else Strpos(s, sub, from + 1)
  }

  /** strpos from the start returns the first occurrence. */
  lemma StrposFirst(s: string, sub: string, k: nat)
    requires OccursAt(s, sub, k)
    requires forall j :: 0 <= j < k ==> !OccursAt(s, sub, j)
    ensures Strpos(s, sub, 0) == Some(k)
  {
  }

  /** strpos finds `sub` somewhere in `s`. */
  predicate Contains(s: string, sub: string) {
    Strpos(s, sub, 0).Some?
  }

  /** The white space of XML and XPath: space, tab, carriage return, line feed. */
  predicate IsXmlSpace(ch: char) {
    ch == ' ' || ch == '\t' || ch == '\r' || ch == '\n'
  }

  /** The character classes the plugins' patterns take runs of. */
  datatype CharClass = Digit | NonSpace | Except(c: char)

  predicate InClass(ch: char, k: CharClass) {
    match k
    case Digit => '0' <= ch <= '9'
    case NonSpace => !IsXmlSpace(ch)
    case Except(c) => ch != c
  }

  /** The longest prefix of `s` whose characters all belong to `k` (a greedy `\d*`, `[^"]*`, ...). */
  function TakeWhile(s: string, k: CharClass): (r: string)
    ensures |r| <= |s| && r == s[..|r|]
    ensures forall i :: 0 <= i < |r| ==> InClass(r[i], k)
    ensures |r| < |s| ==> !InClass(s[|r|], k)
  {
    if s == [] || !InClass(s[0], k) then [] else [s[0]] + TakeWhile(s[1..], k)
  }

  /** The run `TakeWhile` returns is the only prefix with its two properties. */
  lemma TakeWhileOf(run: string, rest: string, k: CharClass)
    requires forall i :: 0 <= i < |run| ==> InClass(run[i], k)
    requires rest == [] || !InClass(rest[0], k)
    ensures TakeWhile(run + rest, k) == run
  {
    var s := run + rest;
    assert s[..|run|] == run;
  }

  /**
   * strtok on a fresh string: leading delimiters are skipped and the token runs
   * up to the next delimiter; FALSE when nothing but delimiters is left.
   */
  function StrTok(s: string, delim: char): (r: Value)
    ensures !r.Null?
    ensures r == False <==> forall i :: 0 <= i < |s| ==> s[i] == delim
    ensures r.Str? ==> r.s != "" && delim !in r.s
    ensures s != "" && s[0] != delim ==> r == Str(TakeWhile(s, Except(delim)))
  {
    if s == [] then False
    else if s[0] == delim then
      assert forall i :: 1 <= i < |s| ==> s[i] == s[1..][i - 1];
      StrTok(s[1..], delim)
    else Str(TakeWhile(s, Except(delim)))
  }

  /** The token strtok returns is the run after the leading delimiters, up to the next one. */
  lemma {:induction false} StrTokToken(s: string, delim: char)
    requires StrTok(s, delim).Str?
    ensures exists k :: 0 <= k < |s| && s[k] != delim && (forall i :: 0 <= i < k ==> s[i] == delim)
                        && StrTok(s, delim).s == TakeWhile(s[k..], Except(delim))
  {
    if s[0] == delim {
      var t := s[1..];
      assert StrTok(s, delim) == StrTok(t, delim);
      StrTokToken(t, delim);
      var k :| 0 <= k < |t| && t[k] != delim && (forall i :: 0 <= i < k ==> t[i] == delim)
               && StrTok(t, delim).s == TakeWhile(t[k..], Except(delim));
      assert t[k..] == s[k + 1..];
      assert forall i :: 1 <= i < k + 1 ==> s[i] == t[i - 1];
      assert s[k + 1] != delim && (forall i :: 0 <= i < k + 1 ==> s[i] == delim)
             && StrTok(s, delim).s == TakeWhile(s[k + 1..], Except(delim));
    } else {
      assert s[0..] == s;
    }
  }

  predicate IsHexDigit(ch: char) {
    '0' <= ch <= '9' || 'a' <= ch <= 'f' || 'A' <= ch <= 'F'
  }

  function HexValue(ch: char): (n: nat)
    requires IsHexDigit(ch)
    ensures n < 16
  {
    if '0' <= ch <= '9' then ch as nat - '0' as nat
    else if 'a' <= ch <= 'f' then ch as nat - 'a' as nat + 10
    else ch as nat - 'A' as nat + 10
  }

  /** urldecode: `+` becomes a space and `%hh` the byte hh; any other `%` stays as it is. */
  function UrlDecode(s: string): (r: string)
    ensures |r| <= |s|
  {
    if s == [] then []
    else if s[0] == '+' then [' '] + UrlDecode(s[1..])
    else if s[0] == '%' && |s| >= 3 && IsHexDigit(s[1]) && IsHexDigit(s[2]) then
      [(HexValue(s[1]) * 16 + HexValue(s[2])) as char] + UrlDecode(s[3..])
    else [s[0]] + UrlDecode(s[1..])
  }

  /** A string with no `%` and no `+` decodes to itself. */
  lemma {:induction false} UrlDecodeIdentity(s: string)
    requires '%' !in s && '+' !in s
    ensures UrlDecode(s) == s
  {
    if s != [] {
      assert s[0] in s;
      assert forall ch :: ch in s[1..] ==> ch in s;
      UrlDecodeIdentity(s[1..]);
    }
  }

  /** The part of `s` after its last `c`; all of `s` when `c` does not occur. */
  function AfterLast(s: string, c: char): (r: string)
    ensures c !in r
  {
    if s == [] || s[|s| - 1] == c then [] else AfterLast(s[..|s| - 1], c) + [s[|s| - 1]]
  }

  /** AfterLast is a suffix of `s`, and the character before it, if any, is `c`. */
  lemma {:induction false} AfterLastSuffix(s: string, c: char)
    ensures |AfterLast(s, c)| <= |s| && AfterLast(s, c) == s[|s| - |AfterLast(s, c)|..]
    ensures |AfterLast(s, c)| < |s| ==> s[|s| - |AfterLast(s, c)| - 1] == c
  {
    if s != [] && s[|s| - 1] != c {
      var init, last := s[..|s| - 1], s[|s| - 1];
      AfterLastSuffix(init, c);
      var r := AfterLast(init, c);
      assert AfterLast(s, c) == r + [last];
      assert s == init + [last];
      assert s[|s| - |r| - 1..] == init[|init| - |r|..] + [last];
      if |r| < |init| {
        assert s[|s| - |r| - 2] == init[|init| - |r| - 1];
      }
    }
  }

  /** What follows the last `c` of `prefix + [c] + tail` is `tail`, when `tail` has no `c`. */
  lemma {:induction false} AfterLastOf(prefix: string, c: char, tail: string)
    requires c !in tail
    ensures AfterLast(prefix + [c] + tail, c) == tail
  {
    var s := prefix + [c] + tail;
    if tail != [] {
      var init := tail[..|tail| - 1];
      assert tail[|tail| - 1] in tail;
      assert forall ch :: ch in init ==> ch in tail;
      assert s[..|s| - 1] == prefix + [c] + init;
      AfterLastOf(prefix, c, init);
      assert tail == init + [tail[|tail| - 1]];
    }
  }

  /** `s` without its trailing run of `c`. */
  function TrimTrailing(s: string, c: char): (r: string)
    ensures r == [] || r[|r| - 1] != c
  {
    if s == [] || s[|s| - 1] != c then s else TrimTrailing(s[..|s| - 1], c)
  }

  /** basename on a Unix host: the last run of characters other than `/`. */
  function Basename(path: string): (r: string)
    ensures '/' !in r
  {
    AfterLast(TrimTrailing(path, '/'), '/')
  }

  /** The extension pathinfo reports: what follows the last `.` of the basename, "" without one. */
  function Extension(path: string): (r: string)
    ensures '.' !in r && '/' !in r
  {
    var b := Basename(path);
    if '.' in b then
      var r := AfterLast(b, '.');
      AfterLastSuffix(b, '.');
      assert forall ch :: ch in r ==> ch in b;
      r
    else []
  }

  /** The basename of `dir + "/" + name` is `name` when `name` is a non-empty file name. */
  lemma BasenameOfJoin(dir: string, name: string)
    requires name != [] && '/' !in name
    ensures Basename(dir + "/" + name) == name
  {
    var s := dir + "/" + name;
    assert TrimTrailing(s, '/') == s;
    assert s == dir + ['/'] + name;
    AfterLastOf(dir, '/', name);
  }

  /** A basename `stem.ext` with a single dot has extension `ext`. */
  lemma ExtensionOfName(path: string, stem: string, ext: string)
    requires '.' !in stem && '.' !in ext
    requires Basename(path) == stem + ['.'] + ext
    ensures Extension(path) == ext
  {
    var name := stem + ['.'] + ext;
    assert name[|stem|] == '.';
    AfterLastOf(stem, '.', ext);
  }

  /** The file `stem.ext` in `dir` has basename `stem.ext` and extension `ext`. */
  lemma JoinedFileName(dir: string, stem: string, ext: string)
    requires '/' !in stem && '.' !in stem && '/' !in ext && '.' !in ext && ext != []
    ensures Basename(dir + ['/'] + stem + ['.'] + ext) == stem + ['.'] + ext
    ensures Extension(dir + ['/'] + stem + ['.'] + ext) == ext
  {
    var name := stem + ['.'] + ext;
    assert forall ch :: ch in name ==> ch in stem || ch == '.' || ch in ext;
    BasenameOfJoin(dir, name);
    assert dir + "/" + name == dir + ['/'] + stem + ['.'] + ext;
    ExtensionOfName(dir + ['/'] + stem + ['.'] + ext, stem, ext);
  }

  /**
   * In `prefix + sub + rest`, no occurrence of `sub` starts inside `prefix` when every
   * character of `prefix` equal to `sub[0]` is followed, still inside `prefix`, by one other
   * than `sub[1]`.
   */
  lemma NoOccurrenceBySecond(prefix: string, sub: string, rest: string)
    requires |sub| >= 2
    requires forall j :: 0 <= j < |prefix| && prefix[j] == sub[0] ==> j + 1 < |prefix| && prefix[j + 1] != sub[1]
    ensures forall j :: 0 <= j < |prefix| ==> !OccursAt(prefix + sub + rest, sub, j)
  {
    var s := prefix + sub + rest;
    forall j | 0 <= j < |prefix|
      ensures !OccursAt(s, sub, j)
    {
      if j + |sub| <= |s| {
        assert s[j..j + |sub|][0] == s[j] == prefix[j];
        if prefix[j] == sub[0] {
          assert s[j..j + |sub|][1] == s[j + 1] == prefix[j + 1];
        }
      }
    }
  }

  /** A path joined with `/` is never "" nor "0", so PHP reads it as true. */
  lemma JoinedPathIsTruthy(dir: string, name: string)
    ensures Truthy(Str(dir + ['/'] + name))
  {
    var path := dir + ['/'] + name;
    assert path[|dir|] == '/';
    if |path| == 1 {
      assert path[0] == '/';
      assert ['0'][0] == '0';
    }
  }
}
