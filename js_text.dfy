/**
 * The JavaScript string built-ins the core uses, on `seq<char>`:
 * `trim`, `startsWith`/`endsWith`, `indexOf`/`lastIndexOf` of one character,
 * `split(".").pop()`, an ASCII `toLowerCase` and `Array.prototype.join`.
 */
module JsText {

  /**
   * The characters `String.prototype.trim` removes: the WhiteSpace and
   * LineTerminator code points of ECMA-262 (sections 12.2 and 12.3).
   */
  predicate IsTrimmable(c: char) {
    || c == '\t' || c == '\n' || c == '\U{000B}' || c == '\U{000C}' || c == '\r'
    || c == ' ' || c == '\U{00A0}' || c == '\U{1680}'
    || ('\U{2000}' <= c <= '\U{200A}')
    || c == '\U{2028}' || c == '\U{2029}' || c == '\U{202F}' || c == '\U{205F}'
    || c == '\U{3000}' || c == '\U{FEFF}'
  }

  /** Neither end of `s` is a trimmable character. */
  predicate IsTrimmed(s: string) {
    s != [] ==> !IsTrimmable(s[0]) && !IsTrimmable(s[|s| - 1])
  }

  /** `s` with its leading trimmable characters removed. */
  function TrimStart(s: string): (r: string)
    ensures |r| <= |s| && r == s[|s| - |r|..]
    ensures forall i {:trigger IsTrimmable(s[i])} :: 0 <= i < |s| - |r| ==> IsTrimmable(s[i])
    ensures r != [] ==> !IsTrimmable(r[0])
  {
    if s != [] && IsTrimmable(s[0]) then TrimStart(s[1..]) else s
  }

  /** `s` with its trailing trimmable characters removed. */
  function TrimEnd(s: string): (r: string)
    ensures |r| <= |s| && r == s[..|r|]
    ensures forall i {:trigger IsTrimmable(s[i])} :: |r| <= i < |s| ==> IsTrimmable(s[i])
    ensures r != [] ==> !IsTrimmable(r[|r| - 1])
  {
    if s != [] && IsTrimmable(s[|s| - 1]) then TrimEnd(s[..|s| - 1]) else s
  }

  /** `s.trim()`. */
  function Trim(s: string): (r: string)
    ensures IsTrimmed(r)
    ensures |r| <= |s|
  {
    TrimEnd(TrimStart(s))
  }

  /**
   * What `trim` removes is trimmable and what it keeps is the contiguous
   * middle of `s`: the result is `s[i..j]` with only trimmable characters
   * outside it.
   */
  lemma TrimSpan(s: string) returns (i: nat, j: nat)
    ensures i <= j <= |s| && Trim(s) == s[i..j]
    ensures forall k {:trigger IsTrimmable(s[k])} :: 0 <= k < i ==> IsTrimmable(s[k])
    ensures forall k {:trigger IsTrimmable(s[k])} :: j <= k < |s| ==> IsTrimmable(s[k])
  {
    i := |s| - |TrimStart(s)|;
    j := TrimEndWithin(s, i);
  }

  /** `TrimEnd` on a suffix `s[i..]` keeps `s[i..j]` and removes only trimmable characters after it. */
  lemma TrimEndWithin(s: string, i: nat) returns (j: nat)
    requires i <= |s|
    ensures i <= j <= |s| && TrimEnd(s[i..]) == s[i..j]
    ensures forall k {:trigger IsTrimmable(s[k])} :: j <= k < |s| ==> IsTrimmable(s[k])
  {
    var t := s[i..];
    var u := TrimEnd(t);
    j := i + |u|;
    assert u == t[..|u|] == s[i..j];
    forall k | j <= k < |s| ensures IsTrimmable(s[k]) {
      assert s[k] == t[k - i];
    }
  }

  /** Trimming text whose ends are not trimmable changes nothing. */
  lemma TrimIdentity(s: string)
    requires IsTrimmed(s)
    ensures Trim(s) == s
  {
    assert TrimStart(s) == s;
  }

  predicate StartsWith(s: string, prefix: string) {
    |prefix| <= |s| && s[..|prefix|] == prefix
  }

  predicate EndsWith(s: string, suffix: string) {
    |suffix| <= |s| && s[|s| - |suffix|..] == suffix
  }

  /** `s.indexOf(c)`: the first position of `c`, or -1. */
  function IndexOf(s: string, c: char): (k: int)
    ensures -1 <= k < |s|
    ensures k >= 0 ==> s[k] == c
    ensures forall i :: 0 <= i < |s| && (k < 0 || i < k) ==> s[i] != c
  {
    if s == [] then -1
    else if s[0] == c then 0
    else
      var k := IndexOf(s[1..], c);
      if k < 0 then -1 else k + 1
  }

  /** `s.lastIndexOf(c)`: the last position of `c`, or -1. */
  function LastIndexOf(s: string, c: char): (k: int)
    ensures -1 <= k < |s|
    ensures k >= 0 ==> s[k] == c
    ensures forall i :: k < i < |s| ==> s[i] != c
  {
    if s == [] then -1
    else if s[|s| - 1] == c then |s| - 1
    else LastIndexOf(s[..|s| - 1], c)
  }

  /**
   * `s.split(sep).pop()` for a one-character separator: the text after the
   * last `sep`, or all of `s` when it has none. The contract pins the result
   * down: a suffix of `s` free of `sep` that is either all of `s` or
   * preceded by `sep`.
   */
  function LastSegment(s: string, sep: char): (r: string)
    ensures |r| <= |s| && r == s[|s| - |r|..]
    ensures sep !in r
    ensures |r| < |s| ==> s[|s| - |r| - 1] == sep
  {
    s[LastIndexOf(s, sep) + 1..]
  }

  /** `c.toLowerCase()` on one character; only ASCII letters change. */
  function LowerChar(c: char): char {
    if 'A' <= c <= 'Z' then (c as int - 'A' as int + 'a' as int) as char else c
  }

  /** `s.toLowerCase()` with ASCII case mapping. */
  function ToLower(s: string): (r: string)
    ensures |r| == |s|
    ensures forall i :: 0 <= i < |s| ==> r[i] == LowerChar(s[i])
  {
    if s == [] then [] else [LowerChar(s[0])] + ToLower(s[1..])
  }

  /**
   * `items.join(sep)`: an empty list joins to "", one item to itself, and
   * each further item adds the separator and the item.
   */
  function Join(items: seq<string>, sep: string): (r: string)
    ensures items == [] ==> r == ""
    ensures |items| == 1 ==> r == items[0]
    ensures items != [] ==> StartsWith(r, items[0])
    ensures |items| > 1 ==> EndsWith(r, sep + items[|items| - 1])
  {
    if |items| == 0 then ""
    else if |items| == 1 then items[0]
    else items[0] + sep + Join(items[1..], sep)
  }

  /** Joining one more item adds the separator and that item at the end, whatever the items hold. */
  lemma {:induction false} JoinAppend(items: seq<string>, x: string, sep: string)
    requires items != []
    ensures Join(items + [x], sep) == Join(items, sep) + sep + x
    decreases |items|
  {
    var xs := items + [x];
    assert xs[0] == items[0] && xs[1..] == items[1..] + [x];
    if |items| > 1 {
      var head, tail := items[0], Join(items[1..], sep);
      JoinAppend(items[1..], x, sep);
      assert Join(xs[1..], sep) == tail + sep + x;
      assert Join(xs, sep) == head + sep + (tail + sep + x);
      assert head + sep + (tail + sep + x) == (head + sep + tail) + sep + x;
    }
  }

  /**
   * The first position at which `sep` occurs in `s`, or -1; with `Split`
   * below it is the inverse that states what `Join` keeps.
   */
  ghost function Find(s: string, sep: string): int
    requires sep != []
    decreases |s|
  {
    if |s| < |sep| then -1
    else if s[..|sep|] == sep then 0
    else
      var k := Find(s[1..], sep);
      if k < 0 then -1 else k + 1
  }

  /** `s.split(sep)` for a non-empty separator. */
  ghost function Split(s: string, sep: string): seq<string>
    requires sep != []
    decreases |s|
  {
    var k := Find(s, sep);
    if k < 0 || k + |sep| > |s| then [s]
    else [s[..k]] + Split(s[k + |sep|..], sep)
  }

  lemma {:induction false} FindAbsent(s: string, sep: string)
    requires sep != [] && sep[0] !in s
    ensures Find(s, sep) == -1
    decreases |s|
  {
    if |s| >= |sep| {
      assert s[..|sep|][0] == s[0];
      FindAbsent(s[1..], sep);
    }
  }

  lemma {:induction false} FindAfter(v: string, sep: string, rest: string)
    requires sep != [] && sep[0] !in v
    ensures Find(v + sep + rest, sep) == |v|
    decreases |v|
  {
    var s := v + sep + rest;
    if v == [] {
      assert s[..|sep|] == sep;
    } else {
      assert s[..|sep|][0] == v[0];
      assert s[1..] == v[1..] + sep + rest;
      FindAfter(v[1..], sep, rest);
    }
  }

  /**
   * Joining and splitting again gives back the items, provided no item holds
   * the separator's first character.
   */
  lemma {:induction false} SplitJoin(items: seq<string>, sep: string)
    requires items != [] && sep != []
    requires forall i :: 0 <= i < |items| ==> sep[0] !in items[i]
    ensures Split(Join(items, sep), sep) == items
    decreases |items|
  {
    if |items| == 1 {
      FindAbsent(items[0], sep);
    } else {
      var rest := Join(items[1..], sep);
      var s := items[0] + sep + rest;
      FindAfter(items[0], sep, rest);
      assert s[..|items[0]|] == items[0];
      assert s[|items[0]| + |sep|..] == rest;
      SplitJoin(items[1..], sep);
    }
  }
}
