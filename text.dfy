/** The JavaScript string operations the pipeline relies on, written out:
    `Array.prototype.join`, `String.prototype.split` with a one-character
    separator, `String.prototype.trim`, `String.prototype.indexOf`, and
    `replace` with a global character class and an empty replacement. */
module Text {
  import opened Wrappers

  /** The ECMAScript WhiteSpace and LineTerminator code points: what `trim` removes. */
  predicate IsSpace(c: char)
  {
    c == '\t' || c == '\n' || c == '\U{B}' || c == '\U{C}' || c == '\r' || c == ' ' ||
    c == '\U{A0}' || c == '\U{1680}' || ('\U{2000}' <= c <= '\U{200A}') ||
    c == '\U{2028}' || c == '\U{2029}' || c == '\U{202F}' || c == '\U{205F}' ||
    c == '\U{3000}' || c == '\U{FEFF}'
  }

  predicate AllSpace(s: string)
  {
    forall i :: 0 <= i < |s| ==> IsSpace(s[i])
  }

  /** Neither end of `s` is whitespace (so `trim` leaves it as it is). */
  predicate Trimmed(s: string)
  {
    s != [] ==> !IsSpace(s[0]) && !IsSpace(s[|s| - 1])
  }

  /** How many times `c` occurs in `s`. */
  function Count(s: string, c: char): nat
  {
    if s == [] then 0 else (if s[0] == c then 1 else 0) + Count(s[1..], c)
  }

  lemma {:induction false} CountAppend(a: string, b: string, c: char)
    ensures Count(a + b, c) == Count(a, c) + Count(b, c)
  {
    if a == [] {
      assert a + b == b;
    } else {
      assert (a + b)[1..] == a[1..] + b;
      CountAppend(a[1..], b, c);
    }
  }

  lemma {:induction false} CountAbsent(s: string, c: char)
    requires c !in s
    ensures Count(s, c) == 0
  {
    if s != [] {
      CountAbsent(s[1..], c);
    }
  }

  /** `words.join(sep)`: for separator-free words, exactly one separator
      between neighbouring words. */
  function Join(words: seq<string>, sep: char): (r: string)
    ensures words != [] && (forall k :: 0 <= k < |words| ==> sep !in words[k]) ==>
              Count(r, sep) == |words| - 1
  {
    if |words| == 0 then ""
    else if |words| == 1 then
      assert sep !in words[0] ==> Count(words[0], sep) == 0 by {
        if sep !in words[0] {
          CountAbsent(words[0], sep);
        }
      }
      words[0]
    else
      var r := words[0] + [sep] + Join(words[1..], sep);
      assert (forall k :: 0 <= k < |words| ==> sep !in words[k]) ==> Count(r, sep) == |words| - 1 by {
        if forall k :: 0 <= k < |words| ==> sep !in words[k] {
          CountAppend(words[0] + [sep], Join(words[1..], sep), sep);
          CountAppend(words[0], [sep], sep);
          CountAbsent(words[0], sep);
          forall k | 0 <= k < |words[1..]| ensures sep !in words[1..][k] {
            assert words[1..][k] == words[k + 1];
          }
        }
      }
      r
  }

  /** Position of the first `c` in `s`, if there is one. */
  function FirstIndex(s: string, c: char): (r: Option<nat>)
    ensures r.None? <==> c !in s
    ensures r.Some? ==> r.value < |s| && s[r.value] == c
    ensures r.Some? ==> forall k :: 0 <= k < r.value ==> s[k] != c
  {
    if |s| == 0 then None
    else if s[0] == c then Some(0)
    else
      match FirstIndex(s[1..], c)
      case None => None
      case Some(i) => Some(i + 1)
  }

  /** `s.split(sep)` for a one-character separator: the pieces between the
      separators, left to right; the empty string gives one empty piece. */
  function Split(s: string, sep: char): (r: seq<string>)
    ensures |r| >= 1
    ensures forall k :: 0 <= k < |r| ==> sep !in r[k]
    decreases |s|
  {
    match FirstIndex(s, sep)
    case None => [s]
    case Some(i) => [s[..i]] + Split(s[i + 1..], sep)
  }

  /** `split` undoes `join` when no word contains the separator. */
  lemma {:induction false} SplitJoin(words: seq<string>, sep: char)
    requires |words| >= 1
    requires forall k :: 0 <= k < |words| ==> sep !in words[k]
    ensures Split(Join(words, sep), sep) == words
  {
    if |words| == 1 {
      assert FirstIndex(words[0], sep).None?;
    } else {
      var rest := Join(words[1..], sep);
      var s := words[0] + [sep] + rest;
      assert s[..|words[0]|] == words[0];
      assert s[|words[0]| + 1..] == rest;
      assert s[|words[0]|] == sep;
      assert forall k :: 0 <= k < |words[0]| ==> s[k] == words[0][k];
      assert FirstIndex(s, sep) == Some(|words[0]|);
      SplitJoin(words[1..], sep);
    }
  }

  /** `join` undoes `split`. */
  lemma {:induction false} JoinSplit(s: string, sep: char)
    ensures Join(Split(s, sep), sep) == s
    decreases |s|
  {
    match FirstIndex(s, sep)
    case None =>
    case Some(i) =>
      var rest := Split(s[i + 1..], sep);
      JoinSplit(s[i + 1..], sep);
      assert ([s[..i]] + rest)[1..] == rest;
      assert Join([s[..i]] + rest, sep) == s[..i] + [sep] + Join(rest, sep);
      assert s == s[..i] + [sep] + s[i + 1..];
  }

  /** `s` without its leading whitespace. */
  function TrimStart(s: string): (r: string)
    ensures |r| <= |s| && r == s[|s| - |r|..]
    ensures AllSpace(s[..|s| - |r|])
    ensures r != [] ==> !IsSpace(r[0])
  {
    if s != [] && IsSpace(s[0]) then TrimStart(s[1..]) else s
  }

  /** `s` without its trailing whitespace. */
  function TrimEnd(s: string): (r: string)
    ensures |r| <= |s| && r == s[..|r|]
    ensures AllSpace(s[|r|..])
    ensures r != [] ==> !IsSpace(r[|r| - 1])
  {
    if s != [] && IsSpace(s[|s| - 1]) then TrimEnd(s[..|s| - 1]) else s
  }

  /** `s.trim()`: the part of `s` left between its leading and trailing whitespace. */
  function Trim(s: string): (r: string)
    ensures Trimmed(r) && |r| <= |s|
  {
    TrimEnd(TrimStart(s))
  }

  /** What `trim` keeps is a slice of the input with only whitespace before
      and after it. */
  lemma TrimIsSlice(s: string)
    ensures exists k :: 0 <= k <= |s| - |Trim(s)| && Trim(s) == s[k..k + |Trim(s)|] &&
                        AllSpace(s[..k]) && AllSpace(s[k + |Trim(s)|..])
  {
    var t := TrimStart(s);
    var r := TrimEnd(t);
    var k := |s| - |t|;
    assert Trim(s) == r;
    assert r == s[k..k + |r|] by {
      assert t == s[k..];
      assert r == t[..|r|];
    }
    assert AllSpace(s[k + |r|..]) by {
      assert t == s[k..];
      assert s[k + |r|..] == t[|r|..];
    }
  }

  /** `trim` adds no character. */
  lemma TrimKeepsOut(s: string, c: char)
    requires c !in s
    ensures c !in Trim(s)
  {
    var t := TrimStart(s);
    assert c !in t;
  }

  lemma TrimStartOfSpaces(pre: string, body: string)
    requires AllSpace(pre)
    requires body != [] ==> !IsSpace(body[0])
    ensures TrimStart(pre + body) == body
    decreases |pre|
  {
    if pre != [] {
      assert (pre + body)[1..] == pre[1..] + body;
      TrimStartOfSpaces(pre[1..], body);
    } else {
      assert pre + body == body;
    }
  }

  lemma TrimEndOfSpaces(body: string, post: string)
    requires AllSpace(post)
    requires body != [] ==> !IsSpace(body[|body| - 1])
    ensures TrimEnd(body + post) == body
    decreases |post|
  {
    if post != [] {
      var s := body + post;
      assert s[|s| - 1] == post[|post| - 1];
      assert s[..|s| - 1] == body + post[..|post| - 1];
      TrimEndOfSpaces(body, post[..|post| - 1]);
    } else {
      assert body + post == body;
    }
  }

  /** `trim` removes exactly the whitespace around a string whose ends are not whitespace. */
  lemma {:induction false} TrimAround(pre: string, body: string, post: string)
    requires AllSpace(pre) && AllSpace(post) && Trimmed(body)
    ensures Trim(pre + body + post) == body
  {
    assert pre + body + post == pre + (body + post);
    if body == [] {
      assert AllSpace(post);
      TrimStartOfSpaces(pre + post, []);
      assert pre + post + [] == pre + body + post;
    } else {
      TrimStartOfSpaces(pre, body + post);
      TrimEndOfSpaces(body, post);
    }
  }

  /** `sub` occurs in `s` starting at position `j`. */
  predicate OccursAt(s: string, sub: string, j: int)
  {
    0 <= j && j + |sub| <= |s| && s[j..j + |sub|] == sub
  }

  /** `s.indexOf(sub)`: the first position at which `sub` occurs in `s`, or -1. */
  function IndexOf(s: string, sub: string): (r: int)
    ensures r == -1 || OccursAt(s, sub, r)
    ensures r == -1 <==> forall j :: 0 <= j <= |s| ==> !OccursAt(s, sub, j)
    ensures forall j :: 0 <= j < r ==> !OccursAt(s, sub, j)
    decreases |s|
  {
    if |sub| > |s| then -1
    else if s[..|sub|] == sub then 0
    else
      var k := IndexOf(s[1..], sub);
      forall j | 1 <= j <= |s|
        ensures OccursAt(s[1..], sub, j - 1) <==> OccursAt(s, sub, j)
      {
        if j + |sub| <= |s| {
          assert s[1..][j - 1..j - 1 + |sub|] == s[j..j + |sub|];
        }
      }
      if k < 0 then -1 else k + 1
  }

  /** `s.replace(/[...]/g, '')`: `s` with every character of `drop` deleted. */
  function RemoveAll(s: string, drop: set<char>): (r: string)
    ensures forall c :: c in r ==> c in s && c !in drop
  {
    if s == [] then []
    else (if s[0] in drop then [] else [s[0]]) + RemoveAll(s[1..], drop)
  }

  /** Deleting characters that do not occur changes nothing. */
  lemma {:induction false} RemoveAllNone(s: string, drop: set<char>)
    requires forall c :: c in s ==> c !in drop
    ensures RemoveAll(s, drop) == s
  {
    if s != [] {
      assert s[0] in s;
      assert forall c :: c in s[1..] ==> c in s;
      RemoveAllNone(s[1..], drop);
    }
  }

  lemma {:induction false} RemoveAllAppend(a: string, b: string, drop: set<char>)
    ensures RemoveAll(a + b, drop) == RemoveAll(a, drop) + RemoveAll(b, drop)
  {
    if a == [] {
      assert a + b == b;
    } else {
      assert (a + b)[1..] == a[1..] + b;
      RemoveAllAppend(a[1..], b, drop);
    }
  }
}
