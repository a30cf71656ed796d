/** The parts of Go's `strings` package that the CLI's parsers rely on,
    specialised to a one-character separator. */
module GoStrings {

  /** `strings.Count(s, string(sep))`: the number of occurrences of `sep`. */
  function Count(s: string, sep: char): (n: nat)
    ensures n <= |s|
    ensures n == 0 <==> sep !in s
  {
    if s == [] then 0 else (if s[0] == sep then 1 else 0) + Count(s[1..], sep)
  }

  lemma {:induction false} CountConcat(a: string, b: string, sep: char)
    ensures Count(a + b, sep) == Count(a, sep) + Count(b, sep)
  {
    if a == [] {
      assert a + b == b;
    } else {
      CountConcat(a[1..], b, sep);
      assert (a + b)[0] == a[0];
      assert (a + b)[1..] == a[1..] + b;
    }
  }

  /** `strings.Join(parts, string(sep))`. */
  function Join(parts: seq<string>, sep: char): string
  {
    if parts == [] then []
    else if |parts| == 1 then parts[0]
    else parts[0] + [sep] + Join(parts[1..], sep)
  }

  /** Joining after an empty first part puts a separator in front. */
  lemma JoinEmptyHead(rest: seq<string>, sep: char)
    requires rest != []
    ensures Join([[]] + rest, sep) == [sep] + Join(rest, sep)
  {
    assert ([[]] + rest)[1..] == rest;
  }

  /** Joining after extending the first part extends the result. */
  lemma JoinExtendHead(c: char, rest: seq<string>, sep: char)
    requires rest != []
    ensures Join([[c] + rest[0]] + rest[1..], sep) == [c] + Join(rest, sep)
  {
    var parts := [[c] + rest[0]] + rest[1..];
    assert parts[1..] == rest[1..];
  }

  /** One step of `Split` when `s` starts with the separator: an empty part is added. */
  lemma SplitSepHead(s: string, sep: char, rest: seq<string>)
    requires s != [] && s[0] == sep && rest != []
    requires forall i :: 0 <= i < |rest| ==> sep !in rest[i]
    requires forall i, c :: 0 <= i < |rest| && c in rest[i] ==> c in s[1..]
    requires Join(rest, sep) == s[1..]
    ensures forall i :: 0 <= i < |[[]] + rest| ==> sep !in ([[]] + rest)[i]
    ensures forall i, c :: 0 <= i < |[[]] + rest| && c in ([[]] + rest)[i] ==> c in s
    ensures Join([[]] + rest, sep) == s
  {
    var parts := [[]] + rest;
    assert forall i :: 1 <= i < |parts| ==> parts[i] == rest[i - 1];
    assert forall c :: c in s[1..] ==> c in s;
    JoinEmptyHead(rest, sep);
    assert [s[0]] + s[1..] == s;
  }

  /** One step of `Split` when `s` starts with another character: it joins the first part. */
  lemma SplitCharHead(s: string, sep: char, rest: seq<string>)
    requires s != [] && s[0] != sep && rest != []
    requires forall i :: 0 <= i < |rest| ==> sep !in rest[i]
    requires forall i, c :: 0 <= i < |rest| && c in rest[i] ==> c in s[1..]
    requires Join(rest, sep) == s[1..]
    ensures var parts := [[s[0]] + rest[0]] + rest[1..];
      (forall i :: 0 <= i < |parts| ==> sep !in parts[i]) &&
      (forall i, c :: 0 <= i < |parts| && c in parts[i] ==> c in s) &&
      Join(parts, sep) == s
  {
    var parts := [[s[0]] + rest[0]] + rest[1..];
    assert forall i :: 1 <= i < |parts| ==> parts[i] == rest[i];
    assert forall c :: c in s[1..] ==> c in s;
    assert forall c :: c in parts[0] ==> c == s[0] || c in rest[0];
    JoinExtendHead(s[0], rest, sep);
    assert [s[0]] + s[1..] == s;
  }

  /** `strings.Split(s, string(sep))`: one part more than there are separators,
      empty parts kept, and `Split("", sep) == [""]`. The parts hold no separator,
      use only characters of `s`, and joining them gives `s` back. */
  function Split(s: string, sep: char): (parts: seq<string>)
    ensures |parts| == Count(s, sep) + 1
    ensures forall i :: 0 <= i < |parts| ==> sep !in parts[i]
    ensures forall i, c :: 0 <= i < |parts| && c in parts[i] ==> c in s
    ensures Join(parts, sep) == s
  {
    if s == [] then [[]]
    else
      var rest := Split(s[1..], sep);
      if s[0] == sep then
        SplitSepHead(s, sep, rest);
        [[]] + rest
      else
        SplitCharHead(s, sep, rest);
        [[s[0]] + rest[0]] + rest[1..]
  }

  lemma {:induction false} SplitNoSeparator(a: string, sep: char)
    requires sep !in a
    ensures Split(a, sep) == [a]
  {
    if a != [] {
      SplitNoSeparator(a[1..], sep);
      assert [a[0]] + a[1..] == a;
    }
  }

  /** Splitting stops at the first separator: everything before it is the first part. */
  lemma {:induction false} SplitFirstSeparator(a: string, b: string, sep: char)
    requires sep !in a
    ensures Split(a + [sep] + b, sep) == [a] + Split(b, sep)
  {
    if a == [] {
      assert a + [sep] + b == [sep] + b;
      assert ([sep] + b)[1..] == b;
    } else {
      var s := a + [sep] + b;
      assert s[0] == a[0] && s[0] != sep;
      assert s[1..] == a[1..] + [sep] + b;
      SplitFirstSeparator(a[1..], b, sep);
      var rest := Split(s[1..], sep);
      assert rest == [a[1..]] + Split(b, sep);
      assert Split(s, sep) == [[a[0]] + rest[0]] + rest[1..];
      assert [a[0]] + a[1..] == a;
    }
  }

  /** Split undoes Join when no part holds the separator (Join undoes Split by
      Split's own contract). */
  lemma {:induction false} SplitJoin(parts: seq<string>, sep: char)
    requires |parts| >= 1
    requires forall i :: 0 <= i < |parts| ==> sep !in parts[i]
    ensures Split(Join(parts, sep), sep) == parts
  {
    if |parts| == 1 {
      SplitNoSeparator(parts[0], sep);
    } else {
      SplitJoin(parts[1..], sep);
      SplitFirstSeparator(parts[0], Join(parts[1..], sep), sep);
      assert [parts[0]] + parts[1..] == parts;
    }
  }

  /** Two-part Join is plain concatenation around the separator. */
  lemma JoinTwo(a: string, b: string, sep: char)
    ensures Join([a, b], sep) == a + [sep] + b
  {
    assert [a, b][1..] == [b];
  }

  /** The white-space characters of Go's `unicode.IsSpace`. */
  predicate IsSpace(c: char)
  {
    c == '\t' || c == '\n' || c == '\U{B}' || c == '\U{C}' || c == '\r' || c == ' '
    || c == '\U{85}' || c == '\U{A0}' || c == '\U{1680}'
    || ('\U{2000}' <= c <= '\U{200A}')
    || c == '\U{2028}' || c == '\U{2029}' || c == '\U{202F}' || c == '\U{205F}' || c == '\U{3000}'
  }

  /** In the Latin-1 range the white space is `\t`, `\n`, `\v`, `\f`, `\r`, the
      space, U+0085 (NEL) and U+00A0 (no-break space); above it, the characters
      with Unicode's White_Space property. */
  lemma IsSpaceLatin1(c: char)
    requires c <= '\U{FF}'
    ensures IsSpace(c) <==> '\t' <= c <= '\r' || c == ' ' || c == '\U{85}' || c == '\U{A0}'
  {
  }

  /** `strings.TrimSpace`: drops the white space at both ends. */
  function TrimSpace(s: string): (r: string)
    ensures |r| <= |s|
    decreases |s|
  {
    if s == [] then s
    else if IsSpace(s[0]) then TrimSpace(s[1..])
    else if IsSpace(s[|s| - 1]) then TrimSpace(s[..|s| - 1])
    else s
  }

  /** A leading white-space character moves both bounds one place to the right. */
  lemma TrimSpaceBoundsLeading(s: string, l: nat, h: nat)
    requires s != [] && IsSpace(s[0])
    requires l <= h <= |s| - 1
    requires TrimSpace(s[1..]) == s[1..][l..h]
    requires forall k :: 0 <= k < l ==> IsSpace(s[1..][k])
    requires forall k :: h <= k < |s| - 1 ==> IsSpace(s[1..][k])
    requires l < h ==> !IsSpace(s[1..][l]) && !IsSpace(s[1..][h - 1])
    ensures TrimSpace(s) == s[l + 1..h + 1]
    ensures forall k :: 0 <= k < l + 1 ==> IsSpace(s[k])
    ensures forall k :: h + 1 <= k < |s| ==> IsSpace(s[k])
    ensures l < h ==> !IsSpace(s[l + 1]) && !IsSpace(s[h])
  {
    assert s[1..][l..h] == s[l + 1..h + 1];
    forall k | 0 < k < |s| ensures s[k] == s[1..][k - 1] { }
  }

  /** A trailing white-space character after a non-space first one leaves the
      bounds where they were; nothing is trimmed at the front. */
  lemma TrimSpaceBoundsTrailing(s: string, t: string, hi: nat)
    requires s != [] && !IsSpace(s[0]) && IsSpace(s[|s| - 1]) && t == s[..|s| - 1]
    requires hi <= |t|
    requires TrimSpace(t) == t[0..hi]
    requires forall k :: hi <= k < |t| ==> IsSpace(t[k])
    requires 0 < hi ==> !IsSpace(t[0]) && !IsSpace(t[hi - 1])
    ensures TrimSpace(s) == s[0..hi]
    ensures forall k :: hi <= k < |s| ==> IsSpace(s[k])
    ensures 0 < hi ==> !IsSpace(s[0]) && !IsSpace(s[hi - 1])
  {
    assert t[0..hi] == s[0..hi];
    forall k | 0 <= k < |t| ensures s[k] == t[k] { }
  }

  /** The bounds of what TrimSpace keeps, with their defining properties. */
  lemma {:induction false} TrimSpaceBounds(s: string) returns (lo: nat, hi: nat)
    ensures lo <= hi <= |s|
    ensures TrimSpace(s) == s[lo..hi]
    ensures forall k :: 0 <= k < lo ==> IsSpace(s[k])
    ensures forall k :: hi <= k < |s| ==> IsSpace(s[k])
    ensures lo < hi ==> !IsSpace(s[lo]) && !IsSpace(s[hi - 1])
    decreases |s|
  {
    if s == [] {
      lo, hi := 0, 0;
    } else if IsSpace(s[0]) {
      var l, h := TrimSpaceBounds(s[1..]);
      TrimSpaceBoundsLeading(s, l, h);
      lo, hi := l + 1, h + 1;
    } else if IsSpace(s[|s| - 1]) {
      var t := s[..|s| - 1];
      lo, hi := TrimSpaceBounds(t);
      assert lo == 0;
      TrimSpaceBoundsTrailing(s, t, hi);
    } else {
      lo, hi := 0, |s|;
      assert s[lo..hi] == s;
    }
  }

  /** TrimSpace is determined by its characterisation: any bounds with the
      properties of TrimSpaceBounds delimit what it keeps. */
  lemma TrimSpaceUnique(s: string, lo: nat, hi: nat)
    requires lo <= hi <= |s|
    requires forall k :: 0 <= k < lo ==> IsSpace(s[k])
    requires forall k :: hi <= k < |s| ==> IsSpace(s[k])
    requires lo < hi ==> !IsSpace(s[lo]) && !IsSpace(s[hi - 1])
    ensures TrimSpace(s) == s[lo..hi]
  {
    var l, h := TrimSpaceBounds(s);
    if lo < hi {
      assert l <= lo;
      assert h >= hi;
      assert l == lo && h == hi;
    } else {
      assert forall k :: 0 <= k < |s| ==> IsSpace(s[k]);
      assert l == h;
    }
  }

  /** White space added at either end of a string is dropped along with the
      string's own. */
  lemma TrimSpacePadded(pre: string, s: string, post: string)
    requires forall k :: 0 <= k < |pre| ==> IsSpace(pre[k])
    requires forall k :: 0 <= k < |post| ==> IsSpace(post[k])
    ensures TrimSpace(pre + s + post) == TrimSpace(s)
  {
    var lo, hi := TrimSpaceBounds(s);
    var t := pre + s + post;
    var n := |pre|;
    assert forall k :: 0 <= k < |s| ==> t[n + k] == s[k];
    assert forall k :: n + |s| <= k < |t| ==> t[k] == post[k - n - |s|];
    assert t[n + lo..n + hi] == s[lo..hi];
    TrimSpaceUnique(t, n + lo, n + hi);
  }

  /** Trimming a string that has no white space at either end changes nothing. */
  lemma TrimSpaceTrimmed(s: string)
    requires s != [] ==> !IsSpace(s[0]) && !IsSpace(s[|s| - 1])
    ensures TrimSpace(s) == s
  {
  }

  /** Trimming twice is trimming once. */
  lemma TrimSpaceIdempotent(s: string)
    ensures TrimSpace(TrimSpace(s)) == TrimSpace(s)
  {
    var lo, hi := TrimSpaceBounds(s);
    TrimSpaceTrimmed(TrimSpace(s));
  }
}
