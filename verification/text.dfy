/**
 The string operations of Rust's `str` that the supervisor relies on:
 `char::is_whitespace`, `trim`, `split_whitespace`, `[String]::join`,
 `str::parse::<i32>` and the decimal formatting of an integer.
 */
module Text {
  import opened Common

  /** `char::is_whitespace`: the Unicode White_Space property. */
  predicate IsWhitespace(c: char) {
    var v := c as int;
    (0x09 <= v <= 0x0D) || v == 0x20 || v == 0x85 || v == 0xA0 || v == 0x1680
    || (0x2000 <= v <= 0x200A) || v == 0x2028 || v == 0x2029 || v == 0x202F
    || v == 0x205F || v == 0x3000
  }

  predicate AllWhitespace(s: string) {
    forall i :: 0 <= i < |s| ==> IsWhitespace(s[i])
  }

  predicate NoWhitespace(s: string) {
    forall i :: 0 <= i < |s| ==> !IsWhitespace(s[i])
  }

  function TrimStart(s: string): (t: string)
    ensures |t| <= |s| && t == s[|s| - |t|..]
    ensures t == [] || !IsWhitespace(t[0])
    ensures AllWhitespace(s[..|s| - |t|])
  {
    if s == [] || !IsWhitespace(s[0]) then s
    else
      var t := TrimStart(s[1..]);
      assert s[..|s| - |t|] == [s[0]] + s[1..][..|s| - 1 - |t|];
      t
  }

  function TrimEnd(s: string): (t: string)
    ensures |t| <= |s| && t == s[..|t|]
    ensures t == [] || !IsWhitespace(t[|t| - 1])
    ensures AllWhitespace(s[|t|..])
  {
    if s == [] || !IsWhitespace(s[|s| - 1]) then s
    else
      var t := TrimEnd(s[..|s| - 1]);
      assert s[|t|..] == s[..|s| - 1][|t|..] + [s[|s| - 1]];
      t
  }

  /** `str::trim`: the text without leading and trailing whitespace. */
  function Trim(s: string): string {
    TrimEnd(TrimStart(s))
  }

  /** `trim().is_empty()` holds exactly for the texts made only of whitespace. */
  lemma TrimEmptyIffBlank(s: string)
    ensures Trim(s) == [] <==> AllWhitespace(s)
  {
    var t := TrimStart(s);
    if Trim(s) == [] {
      assert AllWhitespace(t[0..]);
      if t != [] {
        assert false;
      }
      assert s[..|s| - |t|] == s;
    }
  }

  /** Text without whitespace is left as it is by `trim`. */
  lemma TrimNoWhitespace(s: string)
    requires NoWhitespace(s)
    ensures Trim(s) == s
  {
  }

  /** Number of leading non-whitespace characters. */
  function WordLength(s: string): (n: nat)
    ensures n <= |s|
    ensures forall i :: 0 <= i < n ==> !IsWhitespace(s[i])
    ensures n < |s| ==> IsWhitespace(s[n])
  {
    if s == [] || IsWhitespace(s[0]) then 0 else 1 + WordLength(s[1..])
  }

  /** `str::split_whitespace`: the maximal runs of non-whitespace, in order. */
  function SplitWhitespace(s: string): (words: seq<string>)
    decreases |s|
  {
    if s == [] then []
    else if IsWhitespace(s[0]) then SplitWhitespace(s[1..])
    else
      var n := WordLength(s);
      [s[..n]] + SplitWhitespace(s[n..])
  }

  /** `[String]::join(sep)`. */
  function Join(parts: seq<string>, sep: string): string {
    if parts == [] then []
    else if |parts| == 1 then parts[0]
    else parts[0] + sep + Join(parts[1..], sep)
  }

  /** Concatenation of a sequence of sequences. */
  function Flatten<T>(xss: seq<seq<T>>): seq<T> {
    if xss == [] then [] else xss[0] + Flatten(xss[1..])
  }

  /** Every element is a non-empty, whitespace-free word. */
  predicate AreWords(ws: seq<string>) {
    forall i :: 0 <= i < |ws| ==> |ws[i]| > 0 && NoWhitespace(ws[i])
  }

  /** Characters of the text that are not whitespace, in order. */
  function DropWhitespace(s: string): string {
    if s == [] then []
    else if IsWhitespace(s[0]) then DropWhitespace(s[1..])
    else [s[0]] + DropWhitespace(s[1..])
  }

  lemma {:induction false} DropWhitespaceOfWord(s: string, n: nat)
    requires n <= |s| && NoWhitespace(s[..n])
    ensures DropWhitespace(s) == s[..n] + DropWhitespace(s[n..])
  {
    if n > 0 {
      assert !IsWhitespace(s[..n][0]);
      assert s[1..][..n - 1] == s[..n][1..];
      DropWhitespaceOfWord(s[1..], n - 1);
      assert s[1..][n - 1..] == s[n..];
    }
  }

  /** The words are non-empty, free of whitespace, and together they spell out
      the text's non-whitespace characters in their original order. */
  lemma {:induction false} SplitWhitespaceWords(s: string)
    ensures AreWords(SplitWhitespace(s))
    ensures Flatten(SplitWhitespace(s)) == DropWhitespace(s)
    decreases |s|
  {
    if s == [] {
    } else if IsWhitespace(s[0]) {
      SplitWhitespaceWords(s[1..]);
    } else {
      var n := WordLength(s);
      SplitWhitespaceWords(s[n..]);
      DropWhitespaceOfWord(s, n);
      var ws := SplitWhitespace(s);
      assert ws == [s[..n]] + SplitWhitespace(s[n..]);
      assert ws[1..] == SplitWhitespace(s[n..]);
      forall i | 0 <= i < |ws|
        ensures |ws[i]| > 0 && NoWhitespace(ws[i])
      {
        if i > 0 {
          assert ws[i] == SplitWhitespace(s[n..])[i - 1];
        }
      }
    }
  }

  /** A text splits into no words exactly when it is blank. */
  lemma {:induction false} SplitEmptyIffBlank(s: string)
    ensures SplitWhitespace(s) == [] <==> AllWhitespace(s)
    decreases |s|
  {
    if s != [] {
      SplitEmptyIffBlank(s[1..]);
      if IsWhitespace(s[0]) {
        if AllWhitespace(s[1..]) {
          forall i | 0 <= i < |s|
            ensures IsWhitespace(s[i])
          {
            if i > 0 {
              assert s[i] == s[1..][i - 1];
            }
          }
        }
        if AllWhitespace(s) {
          assert forall i :: 0 <= i < |s| - 1 ==> s[1..][i] == s[i + 1];
        }
      }
    }
  }

  lemma {:induction false} WordLengthAppend(a: string, c: char, b: string)
    requires IsWhitespace(c)
    ensures WordLength(a + [c] + b) == WordLength(a)
    decreases |a|
  {
    if a != [] && !IsWhitespace(a[0]) {
      assert (a + [c] + b)[1..] == a[1..] + [c] + b;
      WordLengthAppend(a[1..], c, b);
    } else if a == [] {
      assert (a + [c] + b)[0] == c;
    } else {
      assert (a + [c] + b)[0] == a[0];
    }
  }

  /** Splitting at a whitespace character splits the two sides independently. */
  lemma {:induction false} SplitAppend(a: string, c: char, b: string)
    requires IsWhitespace(c)
    ensures SplitWhitespace(a + [c] + b) == SplitWhitespace(a) + SplitWhitespace(b)
    decreases |a|
  {
    var s := a + [c] + b;
    if a == [] {
      assert s[1..] == b;
    } else if IsWhitespace(a[0]) {
      assert s[0] == a[0];
      assert s[1..] == a[1..] + [c] + b;
      SplitAppend(a[1..], c, b);
    } else {
      var n := WordLength(a);
      WordLengthAppend(a, c, b);
      assert s[0] == a[0];
      assert s[..n] == a[..n];
      assert s[n..] == a[n..] + [c] + b;
      SplitAppend(a[n..], c, b);
    }
  }

  lemma SplitWord(w: string)
    requires |w| > 0 && NoWhitespace(w)
    ensures SplitWhitespace(w) == [w]
  {
    assert WordLength(w) == |w|;
    assert !IsWhitespace(w[0]);
    assert w[..|w|] == w;
    assert w[|w|..] == [];
    assert SplitWhitespace(w) == [w[..|w|]] + SplitWhitespace(w[|w|..]);
  }

  /** Joining with single spaces and splitting on whitespace gives back the
      whitespace-split words of every part, in order. */
  lemma {:induction false} SplitJoin(parts: seq<string>)
    ensures SplitWhitespace(Join(parts, " ")) == Flatten(MapSplit(parts))
  {
    if |parts| == 1 {
      assert Flatten(MapSplit(parts)) == SplitWhitespace(parts[0]) + Flatten(MapSplit(parts[1..]));
    } else if |parts| > 1 {
      SplitJoin(parts[1..]);
      assert Join(parts, " ") == parts[0] + [' '] + Join(parts[1..], " ");
      SplitAppend(parts[0], ' ', Join(parts[1..], " "));
    }
  }

  function MapSplit(parts: seq<string>): (r: seq<seq<string>>)
    ensures |r| == |parts|
    ensures forall i :: 0 <= i < |parts| ==> r[i] == SplitWhitespace(parts[i])
  {
    if parts == [] then [] else [SplitWhitespace(parts[0])] + MapSplit(parts[1..])
  }

  /** Words joined by single spaces split back into exactly those words. */
  lemma {:induction false} SplitJoinWords(parts: seq<string>)
    requires AreWords(parts)
    ensures SplitWhitespace(Join(parts, " ")) == parts
  {
    SplitJoin(parts);
    FlattenSingletons(parts);
  }

  lemma {:induction false} FlattenSingletons(parts: seq<string>)
    requires AreWords(parts)
    ensures Flatten(MapSplit(parts)) == parts
  {
    if parts != [] {
      SplitWord(parts[0]);
      assert AreWords(parts[1..]) by {
        forall i | 0 <= i < |parts| - 1
          ensures |parts[1..][i]| > 0 && NoWhitespace(parts[1..][i])
        {
          assert parts[1..][i] == parts[i + 1];
        }
      }
      FlattenSingletons(parts[1..]);
      assert MapSplit(parts)[1..] == MapSplit(parts[1..]);
      assert parts == [parts[0]] + parts[1..];
    }
  }

  lemma {:induction false} SplitLeadingBlank(ws: string, t: string)
    requires AllWhitespace(ws)
    ensures SplitWhitespace(ws + t) == SplitWhitespace(t)
    decreases |ws|
  {
    if ws != [] {
      assert (ws + t)[0] == ws[0];
      assert (ws + t)[1..] == ws[1..] + t;
      SplitLeadingBlank(ws[1..], t);
    } else {
      assert ws + t == t;
    }
  }

  lemma SplitTrailingBlank(t: string, ws: string)
    requires AllWhitespace(ws)
    ensures SplitWhitespace(t + ws) == SplitWhitespace(t)
  {
    if ws == [] {
      assert t + ws == t;
    } else {
      assert t + ws == t + [ws[0]] + ws[1..];
      SplitAppend(t, ws[0], ws[1..]);
      SplitEmptyIffBlank(ws[1..]);
      assert SplitWhitespace(t) + [] == SplitWhitespace(t);
    }
  }

  /** `split_whitespace` ignores the whitespace `trim` removes. */
  lemma SplitTrim(s: string)
    ensures SplitWhitespace(Trim(s)) == SplitWhitespace(s)
  {
    SplitTrimStart(s);
    SplitTrimEnd(TrimStart(s));
  }

  lemma SplitTrimStart(s: string)
    ensures SplitWhitespace(TrimStart(s)) == SplitWhitespace(s)
  {
    var t := TrimStart(s);
    var lead := s[..|s| - |t|];
    assert s == lead + t;
    SplitLeadingBlank(lead, t);
  }

  lemma SplitTrimEnd(t: string)
    ensures SplitWhitespace(TrimEnd(t)) == SplitWhitespace(t)
  {
    var u := TrimEnd(t);
    var trail := t[|u|..];
    assert t == u + trail;
    SplitTrailingBlank(u, trail);
  }

  lemma {:induction false} InFlatten<T>(x: T, xss: seq<seq<T>>)
    ensures x in Flatten(xss) <==> exists i :: 0 <= i < |xss| && x in xss[i]
  {
    if xss != [] {
      InFlatten(x, xss[1..]);
      if x in Flatten(xss[1..]) {
        var i :| 0 <= i < |xss| - 1 && x in xss[1..][i];
        assert xss[i + 1] == xss[1..][i];
      }
      if exists i :: 0 <= i < |xss| && x in xss[i] {
        var i :| 0 <= i < |xss| && x in xss[i];
        if i > 0 {
          assert xss[1..][i - 1] == xss[i];
        }
      }
    }
  }

  lemma {:induction false} InDropWhitespace(c: char, s: string)
    requires !IsWhitespace(c)
    ensures c in DropWhitespace(s) <==> c in s
  {
    if s != [] {
      InDropWhitespace(c, s[1..]);
      assert s == [s[0]] + s[1..];
    }
  }

  /** A character that is not whitespace is in some word of the split exactly
      when it is in the text. */
  lemma InSomeWord(c: char, s: string)
    requires !IsWhitespace(c)
    ensures (exists i :: 0 <= i < |SplitWhitespace(s)| && c in SplitWhitespace(s)[i]) <==> c in s
  {
    SplitWhitespaceWords(s);
    InFlatten(c, SplitWhitespace(s));
    InDropWhitespace(c, s);
  }

  // ---------------------------------------------------------------- integers

  const I32_MIN: int := -0x8000_0000
  const I32_MAX: int := 0x7FFF_FFFF

  predicate IsDigit(c: char) {
    '0' <= c <= '9'
  }

  predicate AllDigits(s: string) {
    forall i :: 0 <= i < |s| ==> IsDigit(s[i])
  }

  /** Value of a string of decimal digits, most significant first. */
  function DigitsValue(s: string): (v: nat)
    requires AllDigits(s)
  {
    if s == [] then 0
    else DigitsValue(s[..|s| - 1]) * 10 + (s[|s| - 1] as int - '0' as int)
  }

  /** `str::parse::<i32>`: an optional sign, then one or more ASCII digits,
      in range. */
  function ParseI32(s: string): (r: Option<int>)
    ensures r.Some? ==> I32_MIN <= r.value <= I32_MAX
  {
    if s == [] then None
    else
      var negative := s[0] == '-';
      var digits := if s[0] == '-' || s[0] == '+' then s[1..] else s;
      if digits == [] || !AllDigits(digits) then None
      else
        var v: int := if negative then -(DigitsValue(digits) as int) else DigitsValue(digits);
        if I32_MIN <= v <= I32_MAX then Some(v) else None
  }

  /** Decimal digits of a natural number, no leading zeros. */
  function FormatNat(n: nat): (s: string)
    ensures |s| > 0 && AllDigits(s)
  {
    if n < 10 then [('0' as int + n) as char]
    else FormatNat(n / 10) + [('0' as int + n % 10) as char]
  }

  /** `format!("{}", n)` for an integer. */
  function FormatInt(n: int): (s: string)
    ensures |s| > 0 && NoWhitespace(s)
  {
    var s := if n < 0 then "-" + FormatNat(-n) else FormatNat(n);
    assert forall i :: 0 <= i < |s| ==> s[i] == '-' || IsDigit(s[i]);
    s
  }

  lemma {:induction false} DigitsValueOfFormat(n: nat)
    ensures DigitsValue(FormatNat(n)) == n
  {
    if n >= 10 {
      var s := FormatNat(n);
      assert s[..|s| - 1] == FormatNat(n / 10);
      DigitsValueOfFormat(n / 10);
    }
  }

  /** Parsing the decimal text of an i32 gives the number back. */
  lemma ParseFormat(n: int)
    requires I32_MIN <= n <= I32_MAX
    ensures ParseI32(FormatInt(n)) == Some(n)
  {
    var s := FormatInt(n);
    if n < 0 {
      var d := FormatNat(-n);
      assert s == "-" + d;
      assert s[0] == '-' && s[1..] == d;
      DigitsValueOfFormat(-n);
      assert ParseI32(s) == Some(-(DigitsValue(d) as int));
    } else {
      var d := FormatNat(n);
      assert s == d;
      assert s[0] != '-' && s[0] != '+';
      DigitsValueOfFormat(n);
      assert ParseI32(s) == Some(DigitsValue(d));
    }
  }
}
