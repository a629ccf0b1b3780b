/** The string operations of the Rust standard library that the program relies on. */
module Text {
  import opened Wrappers

  /** The characters with the Unicode White_Space property. */
  predicate IsWhitespace(c: char) {
    || '\t' <= c <= '\r'
    || c == ' ' || c == '\U{85}' || c == '\U{A0}' || c == '\U{1680}'
    || '\U{2000}' <= c <= '\U{200A}'
    || c == '\U{2028}' || c == '\U{2029}' || c == '\U{202F}' || c == '\U{205F}' || c == '\U{3000}'
  }

  /** Its twenty-five code points. */
  lemma WhitespaceCodePoints(c: char)
    ensures IsWhitespace(c) <==> c as int in {
      0x9, 0xA, 0xB, 0xC, 0xD, 0x20, 0x85, 0xA0, 0x1680, 0x2000, 0x2001, 0x2002, 0x2003, 0x2004, 0x2005, 0x2006,
      0x2007, 0x2008, 0x2009, 0x200A, 0x2028, 0x2029, 0x202F, 0x205F, 0x3000}
  {
  }

  function TrimStart(s: string): string {
    if s != "" && IsWhitespace(s[0]) then TrimStart(s[1..]) else s
  }

  function TrimEnd(s: string): string {
    if s != "" && IsWhitespace(s[|s| - 1]) then TrimEnd(s[..|s| - 1]) else s
  }

  function Trim(s: string): string {
    TrimEnd(TrimStart(s))
  }

  /** No whitespace at either end. */
  predicate Trimmed(s: string) {
    s == "" || (!IsWhitespace(s[0]) && !IsWhitespace(s[|s| - 1]))
  }

  lemma {:induction false} TrimStartLaws(s: string)
    ensures var r := TrimStart(s);
            |r| <= |s| && r == s[|s| - |r|..] && (r != "" ==> !IsWhitespace(r[0])) && (r == s || IsWhitespace(s[0]))
  {
    if s != "" && IsWhitespace(s[0]) {
      TrimStartLaws(s[1..]);
    }
  }

  lemma {:induction false} TrimEndLaws(s: string)
    ensures var r := TrimEnd(s);
            |r| <= |s| && r == s[..|r|] && (r != "" ==> !IsWhitespace(r[|r| - 1]))
            && (r == s || IsWhitespace(s[|s| - 1]))
  {
    if s != "" && IsWhitespace(s[|s| - 1]) {
      TrimEndLaws(s[..|s| - 1]);
    }
  }

  /** Trimming yields a trimmed string, and leaves exactly the trimmed strings as they are. */
  lemma TrimLaws(s: string)
    ensures Trimmed(Trim(s))
    ensures Trim(s) == s <==> Trimmed(s)
    ensures Trim(Trim(s)) == Trim(s)
    ensures forall c :: Free(c, s) ==> Free(c, Trim(s))
  {
    TrimStartLaws(s);
    TrimEndLaws(TrimStart(s));
    TrimStartLaws(Trim(s));
    TrimEndLaws(Trim(s));
  }

  /** Whitespace only. */
  predicate AllWhitespace(s: string) {
    forall i :: 0 <= i < |s| ==> IsWhitespace(s[i])
  }

  /** What is left of `s` when whitespace is taken from both ends. */
  ghost predicate TrimsTo(s: string, t: string) {
    Trimmed(t) && exists a: string, b: string :: AllWhitespace(a) && AllWhitespace(b) && s == a + t + b
  }

  lemma {:induction false} TrimStartOfBlank(a: string, t: string)
    requires AllWhitespace(a) && (t == "" || !IsWhitespace(t[0]))
    ensures TrimStart(a + t) == t
  {
    if a == "" {
      assert a + t == t;
    } else {
      assert (a + t)[1..] == a[1..] + t;
      TrimStartOfBlank(a[1..], t);
    }
  }

  lemma {:induction false} TrimEndOfBlank(t: string, b: string)
    requires AllWhitespace(b) && (t == "" || !IsWhitespace(t[|t| - 1]))
    ensures TrimEnd(t + b) == t
  {
    if b == "" {
      assert t + b == t;
    } else {
      var n := |b| - 1;
      assert (t + b)[..|t + b| - 1] == t + b[..n];
      TrimEndOfBlank(t, b[..n]);
    }
  }

  /** Only whitespace is taken off the front. */
  lemma {:induction false} TrimStartTakesBlanks(s: string) returns (a: string)
    ensures AllWhitespace(a) && s == a + TrimStart(s)
  {
    if s != "" && IsWhitespace(s[0]) {
      a := TrimStartTakesBlanks(s[1..]);
      a := [s[0]] + a;
    } else {
      a := "";
    }
  }

  lemma {:induction false} TrimEndTakesBlanks(s: string) returns (b: string)
    ensures AllWhitespace(b) && s == TrimEnd(s) + b
  {
    if s != "" && IsWhitespace(s[|s| - 1]) {
      var n := |s| - 1;
      b := TrimEndTakesBlanks(s[..n]);
      assert s == s[..n] + [s[n]];
      b := b + [s[n]];
    } else {
      b := "";
    }
  }

  /** Trimming takes whitespace from both ends, all of it and nothing else. */
  lemma TrimExactly(s: string, t: string)
    ensures Trim(s) == t <==> TrimsTo(s, t)
  {
    var a := TrimStartTakesBlanks(s);
    var b := TrimEndTakesBlanks(TrimStart(s));
    TrimLaws(s);
    assert s == a + Trim(s) + b;
    if TrimsTo(s, t) {
      var x: string, y: string :| AllWhitespace(x) && AllWhitespace(y) && s == x + t + y;
      if t == "" {
        assert s == (x + y) + "" && AllWhitespace(x + y);
        TrimStartOfBlank(x + y, "");
        assert Trim(s) == "";
      } else {
        assert s == x + (t + y);
        TrimStartOfBlank(x, t + y);
        TrimEndOfBlank(t, y);
      }
    }
  }

  lemma {:induction false} TrimToNothing(s: string)
    ensures Trim(s) == "" <==> AllWhitespace(s)
  {
    if AllWhitespace(s) {
      assert s + "" == s;
      TrimStartOfBlank(s, "");
    }
    if Trim(s) == "" {
      var a := TrimStartTakesBlanks(s);
      var b := TrimEndTakesBlanks(TrimStart(s));
      assert s == a + b;
    }
  }

  /** Trimming does not see whitespace appended at the end. */
  lemma TrimIgnoresTrailing(s: string, c: char)
    requires IsWhitespace(c)
    ensures Trim(s + [c]) == Trim(s)
  {
    if s == "" {
      assert TrimStart([c]) == TrimStart([c][1..]) == "";
    } else if IsWhitespace(s[0]) {
      assert (s + [c])[1..] == s[1..] + [c];
      TrimIgnoresTrailing(s[1..], c);
    } else {
      assert (s + [c])[..|s|] == s;
    }
  }

  /** A prefix that starts with a visible character shields what follows from trimming at the front. */
  lemma TrimAfterPrefix(p: string, s: string)
    requires p != "" && Trimmed(p)
    ensures Trim(p + s) == p + TrimEnd(s)
  {
    assert TrimStart(p + s) == p + s;
    TrimEndAfterPrefix(p, s);
  }

  lemma TrimEndAfterPrefix(p: string, s: string)
    requires p != "" && Trimmed(p)
    ensures TrimEnd(p + s) == p + TrimEnd(s)
  {
    if s == "" {
      assert p + s == p;
    } else if IsWhitespace(s[|s| - 1]) {
      assert (p + s)[..|p + s| - 1] == p + s[..|s| - 1];
      TrimEndAfterPrefix(p, s[..|s| - 1]);
    }
  }

  function StripPrefix(s: string, prefix: string): (r: Option<string>)
    ensures r.Some? <==> prefix <= s
    ensures r.Some? ==> s == prefix + r.value
  {
    if prefix <= s then Some(s[|prefix|..]) else None
  }

  /** The character does not occur in the string. */
  predicate Free(c: char, s: string) {
    forall i :: 0 <= i < |s| ==> s[i] != c
  }

  /** Position of the first `c`, or the length when there is none. */
  function IndexOf(s: string, c: char): (i: nat)
    ensures i <= |s|
    ensures i < |s| ==> s[i] == c
    ensures Free(c, s[..i])
  {
    if s == "" || s[0] == c then 0 else
      var i := 1 + IndexOf(s[1..], c);
      assert s[..i] == [s[0]] + s[1..][..i - 1];
      i
  }

  lemma IndexOfAppend(a: string, c: char, b: string)
    requires Free(c, a)
    ensures IndexOf(a + [c] + b, c) == |a|
  {
    if a != "" {
      assert (a + [c] + b)[1..] == a[1..] + [c] + b;
      IndexOfAppend(a[1..], c, b);
    }
  }

  function SplitOnce(s: string, c: char): (r: Option<(string, string)>)
    ensures r.None? <==> Free(c, s)
    ensures r.Some? ==> s == r.value.0 + [c] + r.value.1 && Free(c, r.value.0)
  {
    var i := IndexOf(s, c);
    if i == |s| then
      assert s[..i] == s;
      None
    else
      assert s == s[..i] + [c] + s[i + 1..];
      Some((s[..i], s[i + 1..]))
  }

  lemma SplitOnceAppend(a: string, c: char, b: string)
    requires Free(c, a)
    ensures SplitOnce(a + [c] + b, c) == Some((a, b))
  {
    IndexOfAppend(a, c, b);
    assert (a + [c] + b)[..|a|] == a && (a + [c] + b)[|a| + 1..] == b;
  }

  /** The pieces between separators; always at least one. */
  function Split(s: string, c: char): (r: seq<string>)
    ensures r != []
    decreases |s|
  {
    var i := IndexOf(s, c);
    if i == |s| then [s] else [s[..i]] + Split(s[i + 1..], c)
  }

  function Join(parts: seq<string>, c: char): string {
    if parts == [] then "" else if |parts| == 1 then parts[0] else parts[0] + [c] + Join(parts[1..], c)
  }

  lemma SplitAppend(a: string, c: char, b: string)
    requires Free(c, a)
    ensures Split(a + [c] + b, c) == [a] + Split(b, c)
  {
    IndexOfAppend(a, c, b);
    assert (a + [c] + b)[..|a|] == a && (a + [c] + b)[|a| + 1..] == b;
  }

  lemma SplitWhole(s: string, c: char)
    requires Free(c, s)
    ensures Split(s, c) == [s]
  {
  }

  /** Splitting undoes joining, for pieces free of the separator. */
  lemma {:induction false} SplitOfJoin(parts: seq<string>, c: char)
    requires parts != []
    requires forall i :: 0 <= i < |parts| ==> Free(c, parts[i])
    ensures Split(Join(parts, c), c) == parts
  {
    if |parts| == 1 {
      SplitWhole(parts[0], c);
    } else {
      SplitAppend(parts[0], c, Join(parts[1..], c));
      SplitOfJoin(parts[1..], c);
    }
  }

  /** Joining undoes splitting, and no piece holds the separator. */
  lemma {:induction false} JoinOfSplit(s: string, c: char)
    ensures Join(Split(s, c), c) == s
    ensures forall i :: 0 <= i < |Split(s, c)| ==> Free(c, Split(s, c)[i])
    ensures forall d :: Free(d, s) ==> forall k :: 0 <= k < |Split(s, c)| ==> Free(d, Split(s, c)[k])
    decreases |s|
  {
    var i := IndexOf(s, c);
    if i < |s| {
      JoinOfSplit(s[i + 1..], c);
      assert s == s[..i] + [c] + s[i + 1..];
      forall d, k | Free(d, s) && 0 <= k < |Split(s, c)|
        ensures Free(d, Split(s, c)[k])
      {
        assert Free(d, s[i + 1..]);
        assert k > 0 ==> Split(s, c)[k] == Split(s[i + 1..], c)[k - 1];
      }
    } else {
      assert s[..i] == s;
    }
  }
}
