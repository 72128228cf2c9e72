/**
 * The repair both API routes apply to the model's reply before JSON.parse
 * (src/app/api/questions/route.ts and src/app/api/sermon-analysis/route.ts):
 * trim; when the text opens with a code fence, drop the opening "```" or
 * "```json" and one closing "```" at the very end, then trim again; finally
 * keep the greedy match of /\{[\s\S]*\}/, the span from the first `{` to the
 * last `}`, when there is one.
 */
module ResponseCleaning {
  import opened JsText

  const Fence := "```"
  const JsonTag := "json"

  /** Text that starts with `{` and ends with a later `}`. */
  predicate IsObjectShaped(s: string) {
    |s| >= 2 && s[0] == '{' && s[|s| - 1] == '}'
  }

  /** Some `{` has a `}` after it: exactly when /\{[\s\S]*\}/ matches. */
  predicate HasBracePair(s: string) {
    exists i, j :: 0 <= i < j < |s| && s[i] == '{' && s[j] == '}'
  }

  /**
   * `.replace(/^```(?:json)?/, "")` on text that starts with the fence: a
   * suffix of `t` without the fence, and without the "json" tag exactly when
   * the tag follows the fence.
   */
  function DropOpeningFence(t: string): (r: string)
    requires StartsWith(t, Fence)
    ensures |r| <= |t| - |Fence| && r == t[|t| - |r|..]
    ensures |r| == |t| - |Fence + JsonTag| <==> StartsWith(t, Fence + JsonTag)
    ensures !StartsWith(t, Fence + JsonTag) ==> r == t[|Fence|..]
  {
    if StartsWith(t, Fence + JsonTag) then t[|Fence + JsonTag|..] else t[|Fence|..]
  }

  /** `.replace(/```$/, "")`: a prefix of `t`, three shorter exactly when `t` ends with the fence. */
  function DropClosingFence(t: string): (r: string)
    ensures |r| <= |t| && r == t[..|r|]
    ensures |r| == |t| - |Fence| <==> EndsWith(t, Fence)
    ensures !EndsWith(t, Fence) ==> r == t
  {
    if EndsWith(t, Fence) then t[..|t| - |Fence|] else t
  }

  /**
   * The conditional fence strip. Text that does not open with "```" is left
   * alone; otherwise the result is trimmed and at least the opening fence is gone.
   */
  function StripFence(t: string): (r: string)
    ensures !StartsWith(t, Fence) ==> r == t
    ensures StartsWith(t, Fence) ==> IsTrimmed(r) && |r| <= |t| - |Fence|
  {
    if StartsWith(t, Fence) then Trim(DropClosingFence(DropOpeningFence(t))) else t
  }

  /**
   * A text that starts with `m` and continues past `p` with a character foreign
   * to `m` has all of `m` inside `p`.
   */
  lemma PrefixWithin(p: string, r: string, m: string)
    requires StartsWith(p + r, m)
    requires r != [] && r[0] !in m
    ensures |m| <= |p| && p[..|m|] == m
  {
    var s := p + r;
    assert s[|p|] == r[0];
    assert s[..|m|] == p[..|m|];
  }

  /** The opening fence takes the "json" tag only when the tag is really there. */
  lemma OpeningFenceOf(tag: string, rest: string)
    requires tag == "" || tag == JsonTag
    requires tag == JsonTag || !StartsWith(rest, JsonTag)
    ensures StartsWith(Fence + tag + rest, Fence)
    ensures DropOpeningFence(Fence + tag + rest) == rest
  {
    var t := Fence + tag + rest;
    assert t[..|Fence|] == Fence;
    if tag == JsonTag {
      assert t[..|Fence + JsonTag|] == Fence + JsonTag;
      assert t[|Fence + JsonTag|..] == rest;
    } else {
      assert t[|Fence|..] == rest;
      assert !StartsWith(t, Fence + JsonTag) by {
        if |rest| >= |JsonTag| {
          assert t[..|Fence + JsonTag|][|Fence|..] == rest[..|JsonTag|];
        } else {
          assert |t| < |Fence + JsonTag|;
        }
      }
    }
  }

  /** A fence closed at the very end: both markers go, and the inside is trimmed. */
  lemma StripClosedFence(tag: string, inner: string)
    requires tag == "" || tag == JsonTag
    requires tag == JsonTag || !StartsWith(inner, JsonTag)
    ensures StripFence(Fence + tag + inner + Fence) == Trim(inner)
  {
    assert tag == JsonTag || !StartsWith(inner + Fence, JsonTag) by {
      if |inner| >= |JsonTag| {
        assert (inner + Fence)[..|JsonTag|] == inner[..|JsonTag|];
      } else {
        assert (inner + Fence)[|inner|] == '`';
      }
    }
    assert Fence + tag + inner + Fence == Fence + tag + (inner + Fence);
    OpeningFenceOf(tag, inner + Fence);
    assert (inner + Fence)[|inner|..] == Fence;
    assert DropClosingFence(inner + Fence) == inner;
  }

  /** An opening fence with no closing one at the end: only the opening marker goes. */
  lemma StripUnclosedFence(tag: string, inner: string)
    requires tag == "" || tag == JsonTag
    requires tag == JsonTag || !StartsWith(inner, JsonTag)
    requires !EndsWith(inner, Fence)
    ensures StripFence(Fence + tag + inner) == Trim(inner)
  {
    OpeningFenceOf(tag, inner);
  }

  /**
   * `cleaned.match(/\{[\s\S]*\}/)?.[0] ?? cleaned`. The result is object-shaped
   * exactly when the input holds a `{` followed later by a `}`; otherwise the
   * input comes back unchanged.
   */
  function ExtractBraces(s: string): (r: string)
    ensures |r| <= |s|
    ensures HasBracePair(s) <==> IsObjectShaped(r)
    ensures !HasBracePair(s) ==> r == s
  {
    var open := IndexOf(s, '{');
    var close := LastIndexOf(s, '}');
    assert HasBracePair(s) ==> 0 <= open < close;
    assert IsObjectShaped(s) ==> HasBracePair(s) by {
      if IsObjectShaped(s) { assert s[0] == '{' && s[|s| - 1] == '}'; }
    }
    if 0 <= open < close then s[open..close + 1] else s
  }

  /**
   * The match is the leftmost-longest one: a contiguous span `s[i..j]` that
   * opens on the first `{` and closes on the last `}` of `s`; with no match
   * the span is all of `s`.
   */
  lemma ExtractBracesSpan(s: string) returns (i: nat, j: nat)
    ensures i <= j <= |s| && ExtractBraces(s) == s[i..j]
    ensures HasBracePair(s) ==> i < j && s[i] == '{' && s[j - 1] == '}'
    ensures HasBracePair(s) ==> '{' !in s[..i] && '}' !in s[j..]
    ensures !HasBracePair(s) ==> i == 0 && j == |s|
  {
    var open := IndexOf(s, '{');
    var close := LastIndexOf(s, '}');
    if 0 <= open < close {
      i, j := open, close + 1;
      assert forall k :: 0 <= k < i ==> s[..i][k] == s[k];
      assert forall k :: 0 <= k < |s| - j ==> s[j..][k] == s[j + k];
    } else {
      i, j := 0, |s|;
    }
  }

  /** On object-shaped text the extraction keeps everything. */
  lemma ExtractBracesKeepsObject(s: string)
    requires IsObjectShaped(s)
    ensures ExtractBraces(s) == s
  {
    assert IndexOf(s, '{') == 0;
    assert LastIndexOf(s, '}') == |s| - 1;
    assert s[0..|s|] == s;
  }

  /** Extracting twice gives what extracting once gives. */
  lemma ExtractBracesIdempotent(s: string)
    ensures ExtractBraces(ExtractBraces(s)) == ExtractBraces(s)
  {
    if HasBracePair(s) {
      ExtractBracesKeepsObject(ExtractBraces(s));
    }
  }

  /**
   * The whole repair applied to a text block before JSON.parse; the same
   * function serves both routes. It never lengthens the text, and what it
   * hands to JSON.parse is either `{`…`}`-shaped or has no whitespace at
   * either end.
   */
  function Clean(text: string): (r: string)
    ensures |r| <= |text|
    ensures IsObjectShaped(r) || IsTrimmed(r)
  {
    ExtractBraces(StripFence(Trim(text)))
  }

  /**
   * The extraction finds an object embedded between text that opens no brace
   * before it and closes none after it.
   */
  lemma ExtractEmbedded(p: string, b: string, q: string)
    requires IsObjectShaped(b) && '{' !in p && '}' !in q
    ensures ExtractBraces(p + b + q) == b
  {
    var s := p + b + q;
    assert s[|p|] == '{' && s[|p| + |b| - 1] == '}';
    assert forall k :: 0 <= k < |p| ==> s[k] == p[k] != '{';
    assert forall k :: |p| + |b| <= k < |s| ==> s[k] == q[k - |p| - |b|] != '}';
    assert s[IndexOf(s, '{')..LastIndexOf(s, '}') + 1] == b;
  }

  /** Leading whitespace stops at the object's opening brace at the latest. */
  lemma TrimStartEmbedded(p: string, b: string, q: string) returns (p': string)
    requires IsObjectShaped(b) && '{' !in p
    ensures TrimStart(p + b + q) == p' + b + q
    ensures '{' !in p'
  {
    var s := p + b + q;
    var t := TrimStart(s);
    assert s[|p|] == b[0] == '{';
    assert !IsTrimmable(s[|p|]);
    var k := |s| - |t|;
    assert k <= |p|;
    p' := p[k..];
    assert s[k..] == p' + b + q;
    assert forall c :: c in p' ==> c in p;
  }

  /** Trailing whitespace stops at the object's closing brace at the latest. */
  lemma TrimEndEmbedded(p: string, b: string, q: string) returns (q': string)
    requires IsObjectShaped(b) && '}' !in q
    ensures TrimEnd(p + b + q) == p + b + q'
    ensures '}' !in q'
  {
    var t := p + b + q;
    var u := TrimEnd(t);
    assert t[|p| + |b| - 1] == b[|b| - 1] == '}';
    assert !IsTrimmable(t[|p| + |b| - 1]);
    assert |u| >= |p| + |b|;
    q' := q[..|u| - |p| - |b|];
    assert t[..|u|] == p + b + q';
    assert forall c :: c in q' ==> c in q;
  }

  /** Trimming keeps an embedded object and brace-free surroundings. */
  lemma TrimEmbedded(p: string, b: string, q: string) returns (p': string, q': string)
    requires IsObjectShaped(b) && '{' !in p && '}' !in q
    ensures Trim(p + b + q) == p' + b + q'
    ensures '{' !in p' && '}' !in q'
  {
    p' := TrimStartEmbedded(p, b, q);
    q' := TrimEndEmbedded(p', b, q);
  }

  /** Dropping the opening fence keeps an embedded object and a brace-free prefix. */
  lemma OpeningFenceEmbedded(p: string, b: string, q: string) returns (p': string)
    requires IsObjectShaped(b) && '{' !in p
    requires StartsWith(p + b + q, Fence)
    ensures DropOpeningFence(p + b + q) == p' + b + q
    ensures '{' !in p'
  {
    var s := p + b + q;
    assert s == p + (b + q);
    PrefixWithin(p, b + q, Fence);
    if StartsWith(s, Fence + JsonTag) {
      PrefixWithin(p, b + q, Fence + JsonTag);
      p' := p[|Fence + JsonTag|..];
    } else {
      p' := p[|Fence|..];
    }
    assert forall c :: c in p' ==> c in p;
  }

  /** Dropping a closing fence keeps an embedded object and a brace-free suffix. */
  lemma ClosingFenceEmbedded(p: string, b: string, q: string) returns (q': string)
    requires IsObjectShaped(b) && '}' !in q
    ensures DropClosingFence(p + b + q) == p + b + q'
    ensures '}' !in q'
  {
    var s := p + b + q;
    if EndsWith(s, Fence) {
      assert s[|p| + |b| - 1] == '}';
      assert |q| >= |Fence| || s[|p| + |b| - 1] == '`' by {
        if |q| < |Fence| { assert s[|s| - |Fence|..][|Fence| - 1 - |q|] == s[|p| + |b| - 1]; }
      }
      q' := q[..|q| - |Fence|];
    } else {
      q' := q;
    }
    assert forall c :: c in q' ==> c in q;
  }

  /** The conditional fence strip keeps an embedded object and the brace-free sides. */
  lemma StripFenceEmbedded(p: string, b: string, q: string) returns (p': string, q': string)
    requires IsObjectShaped(b) && '{' !in p && '}' !in q
    ensures StripFence(p + b + q) == p' + b + q'
    ensures '{' !in p' && '}' !in q'
  {
    if !StartsWith(p + b + q, Fence) {
      p', q' := p, q;
    } else {
      var p1 := OpeningFenceEmbedded(p, b, q);
      var q1 := ClosingFenceEmbedded(p1, b, q);
      p', q' := TrimEmbedded(p1, b, q1);
    }
  }

  /**
   * The pipeline recovers an object from a reply that wraps it in anything that
   * opens no `{` before it and closes no `}` after it: surrounding whitespace,
   * a "```json" fence, explanatory prose.
   */
  lemma {:induction false} CleanRecoversEmbedded(p: string, b: string, q: string)
    requires IsObjectShaped(b) && '{' !in p && '}' !in q
    ensures Clean(p + b + q) == b
  {
    var p1, q1 := TrimEmbedded(p, b, q);
    var p2, q2 := StripFenceEmbedded(p1, b, q1);
    ExtractEmbedded(p2, b, q2);
  }

  /** Already clean input, `{`…`}` with nothing around it, passes through unchanged. */
  lemma CleanIdentity(b: string)
    requires IsObjectShaped(b)
    ensures Clean(b) == b
  {
    assert "" + b + "" == b;
    CleanRecoversEmbedded("", b, "");
  }

  /** A reply whose cleaned form is an object cleans to itself again. */
  lemma CleanStableOnObjects(text: string)
    requires IsObjectShaped(Clean(text))
    ensures Clean(Clean(text)) == Clean(text)
  {
    CleanIdentity(Clean(text));
  }
}
