/**
  The handful of Python string operations the intake pipeline relies on:
  `str.lower()`, `str.strip()` and `str.split(sep)`, restricted to the ASCII
  range (letters `A`-`Z` for case, and the ASCII characters Python's
  `str.isspace()` accepts for whitespace).
 */
module Text {

  /** Python's `str.isspace()` on ASCII: tab, line feed, vertical tab, form
      feed, carriage return, the four information separators 0x1C-0x1F, and
      space. */
  predicate IsSpace(c: char) {
    c == ' ' || ('\t' <= c <= '\r') || ('\U{1C}' <= c <= '\U{1F}')
  }

  /** Python's `lower()` on one ASCII character. */
  function LowerChar(c: char): char {
    if 'A' <= c <= 'Z' then (c as int + 32) as char else c
  }

  /** Python's `str.lower()`, ASCII letters only: each upper-case letter
      becomes the letter 32 code points above it, and every other character
      is kept. */
  function Lower(s: string): string {
    seq(|s|, i requires 0 <= i < |s| => LowerChar(s[i]))
  }

  /** `Lower` character by character: an upper-case ASCII letter becomes
      its lower-case counterpart, and every other character is kept. */
  lemma LowerPointwise(s: string)
    ensures |Lower(s)| == |s|
    ensures forall i :: 0 <= i < |s| && 'A' <= s[i] <= 'Z' ==>
      Lower(s)[i] as int == s[i] as int + 32 && 'a' <= Lower(s)[i] <= 'z'
    ensures forall i :: 0 <= i < |s| && !('A' <= s[i] <= 'Z') ==> Lower(s)[i] == s[i]
  {
  }

  predicate AllSpace(s: string) {
    forall k :: 0 <= k < |s| ==> IsSpace(s[k])
  }

  /** Neither starts nor ends with whitespace. */
  predicate Stripped(s: string) {
    |s| == 0 || (!IsSpace(s[0]) && !IsSpace(s[|s| - 1]))
  }

  /** Holds of a string that `Lower` leaves unchanged. */
  predicate IsLower(s: string) {
    forall k :: 0 <= k < |s| ==> !('A' <= s[k] <= 'Z')
  }

  /** Python's `str.lstrip()`: the suffix left after dropping the leading
      whitespace. */
  function TrimLeft(s: string): (r: string)
    ensures |r| <= |s| && r == s[|s| - |r|..]
    ensures AllSpace(s[..|s| - |r|])
    ensures |r| > 0 ==> !IsSpace(r[0])
    decreases |s|
  {
    if |s| > 0 && IsSpace(s[0]) then TrimLeft(s[1..]) else s
  }

  /** Python's `str.rstrip()`: the prefix left after dropping the trailing
      whitespace. */
  function TrimRight(s: string): (r: string)
    ensures |r| <= |s| && r == s[..|r|]
    ensures AllSpace(s[|r|..])
    ensures |r| > 0 ==> !IsSpace(r[|r| - 1])
    decreases |s|
  {
    if |s| > 0 && IsSpace(s[|s| - 1]) then
      var r := TrimRight(s[..|s| - 1]);
      assert forall k :: |r| <= k < |s| - 1 ==> s[k] == s[..|s| - 1][|r|..][k - |r|];
      r
    else s
  }

  /** Python's `str.strip()`. */
  function Strip(s: string): (r: string)
    ensures Stripped(r)
    ensures |r| <= |s|
  {
    TrimRight(TrimLeft(s))
  }

  /** The whitespace `Strip` removes from the front of `s`. */
  function LeadingSpace(s: string): string {
    s[..|s| - |TrimLeft(s)|]
  }

  /** The whitespace `Strip` removes from the back of `s`. */
  function TrailingSpace(s: string): string {
    TrimLeft(s)[|Strip(s)|..]
  }

  /** `Strip` keeps a middle slice: `s` is whitespace, then `Strip(s)`, then
      whitespace. */
  lemma StripDecomposes(s: string)
    ensures AllSpace(LeadingSpace(s)) && AllSpace(TrailingSpace(s))
    ensures s == LeadingSpace(s) + Strip(s) + TrailingSpace(s)
  {
    var l := TrimLeft(s);
    var r := TrimRight(l);
    SplitAt(s, |s| - |l|);
    SplitAt(l, |r|);
    SeqAssoc3(s[..|s| - |l|], r, l[|r|..]);
  }

  lemma SplitAt(s: string, k: nat)
    requires k <= |s|
    ensures s == s[..k] + s[k..]
  {
  }

  lemma SeqAssoc3(a: string, m: string, b: string)
    ensures a + (m + b) == a + m + b
  {
  }

  /** `TrimLeft` removes exactly a whitespace prefix that is followed by a
      non-whitespace character. */
  lemma TrimLeftExact(a: string, t: string)
    requires AllSpace(a) && |t| > 0 && !IsSpace(t[0])
    ensures TrimLeft(a + t) == t
  {
    var s := a + t;
    var l := TrimLeft(s);
    var cut := |s| - |l|;
    assert forall k :: 0 <= k < cut ==> IsSpace(s[k]) by {
      forall k | 0 <= k < cut ensures IsSpace(s[k]) { assert s[..cut][k] == s[k]; }
    }
    assert forall k :: 0 <= k < |a| ==> s[k] == a[k];
    assert s[|a|] == t[0];
    assert forall k :: 0 <= k < |l| ==> l[k] == s[cut + k];
    assert cut == |a|;
  }

  /** `TrimRight` removes exactly a whitespace suffix that follows a
      non-whitespace character. */
  lemma TrimRightExact(t: string, b: string)
    requires AllSpace(b) && |t| > 0 && !IsSpace(t[|t| - 1])
    ensures TrimRight(t + b) == t
  {
    var s := t + b;
    var r := TrimRight(s);
    assert forall k :: |r| <= k < |s| ==> IsSpace(s[k]) by {
      forall k | |r| <= k < |s| ensures IsSpace(s[k]) { assert s[|r|..][k - |r|] == s[k]; }
    }
    assert forall k :: |t| <= k < |s| ==> s[k] == b[k - |t|];
    assert s[|t| - 1] == t[|t| - 1];
    assert forall k :: 0 <= k < |r| ==> r[k] == s[k];
    assert |r| == |t|;
  }

  /** A string made only of whitespace strips to nothing. */
  lemma StripAllSpace(s: string)
    requires AllSpace(s)
    ensures Strip(s) == ""
  {
    assert |TrimLeft(s)| == 0;
  }

  /** `Strip` is characterised by its meaning: whatever whitespace surrounds
      a string with no surrounding whitespace, `Strip` recovers exactly that
      string. With `StripDecomposes` this pins `Strip(s)` down uniquely. */
  lemma StripCharacterised(a: string, m: string, b: string)
    requires AllSpace(a) && AllSpace(b) && Stripped(m)
    ensures Strip(a + m + b) == m
  {
    if |m| == 0 {
      assert a + m + b == a + b;
      assert AllSpace(a + b) by {
        forall k | 0 <= k < |a + b| ensures IsSpace((a + b)[k]) {
          if k < |a| { assert (a + b)[k] == a[k]; } else { assert (a + b)[k] == b[k - |a|]; }
        }
      }
      StripAllSpace(a + b);
    } else {
      assert a + m + b == a + (m + b);
      TrimLeftExact(a, m + b);
      TrimRightExact(m, b);
    }
  }

  /** Extra whitespace around a string does not change what it strips to. */
  lemma StripPadded(x: string, s: string, y: string)
    requires AllSpace(x) && AllSpace(y)
    ensures Strip(x + s + y) == Strip(s)
  {
    StripDecomposes(s);
    var a, m, b := LeadingSpace(s), Strip(s), TrailingSpace(s);
    AllSpaceConcat(x, a);
    AllSpaceConcat(b, y);
    calc {
      x + s + y;
      x + (a + m + b) + y;
      { SeqAssoc5(x, a, m, b, y); }
      (x + a) + m + (b + y);
    }
    StripCharacterised(x + a, m, b + y);
  }

  lemma SeqAssoc5(x: string, a: string, m: string, b: string, y: string)
    ensures x + (a + m + b) + y == (x + a) + m + (b + y)
  {
  }

  lemma StripIdempotent(s: string)
    ensures Strip(Strip(s)) == Strip(s)
  {
    StripCharacterised("", Strip(s), "");
    assert "" + Strip(s) + "" == Strip(s);
  }

  lemma LowerIdempotent(s: string)
    ensures Lower(Lower(s)) == Lower(s)
  {
  }

  lemma LowerIsLower(s: string)
    ensures IsLower(Lower(s))
  {
  }

  lemma LowerOfLower(s: string)
    requires IsLower(s)
    ensures Lower(s) == s
  {
  }

  lemma LowerConcat(a: string, b: string)
    ensures Lower(a + b) == Lower(a) + Lower(b)
  {
  }

  /** Lower-casing neither creates nor destroys whitespace. */
  lemma LowerKeepsSpace(s: string)
    ensures AllSpace(s) ==> AllSpace(Lower(s))
    ensures Stripped(s) ==> Stripped(Lower(s))
  {
  }

  /** The characters `Strip` keeps are the middle slice of `s`, in order. */
  lemma StripSlice(s: string)
    ensures forall k :: 0 <= k < |Strip(s)| ==> Strip(s)[k] == s[|LeadingSpace(s)| + k]
  {
    StripDecomposes(s);
    var a, m, b := LeadingSpace(s), Strip(s), TrailingSpace(s);
    forall k | 0 <= k < |m| ensures m[k] == s[|a| + k] {
      MiddleIndex(a, m, b, k);
    }
  }

  lemma MiddleIndex(a: string, m: string, b: string, k: nat)
    requires k < |m|
    ensures (a + m + b)[|a| + k] == m[k]
  {
  }

  lemma AllSpaceConcat(x: string, y: string)
    requires AllSpace(x) && AllSpace(y)
    ensures AllSpace(x + y)
  {
    assert forall k :: 0 <= k < |x| ==> (x + y)[k] == x[k];
    assert forall k :: |x| <= k < |x + y| ==> (x + y)[k] == y[k - |x|];
  }

  /** Stripping a lower-case string leaves a lower-case string. */
  lemma StripKeepsLower(s: string)
    requires IsLower(s)
    ensures IsLower(Strip(s))
  {
    StripSlice(s);
  }

  /** Stripping never removes a non-whitespace character. */
  lemma StripKeeps(s: string, c: char)
    requires c in s && !IsSpace(c)
    ensures c in Strip(s)
  {
    StripDecomposes(s);
    var a, m, b := LeadingSpace(s), Strip(s), TrailingSpace(s);
    assert c in (a + m) + b;
    assert c !in a && c !in b;
  }

  /** Python's `s.split(sep)`: the maximal runs between separators, in order.
      There is always at least one part and no part holds the separator;
      `JoinSplit` and `SplitJoin` show it is the inverse of `Join`. */
  function Split(s: string, sep: char): (parts: seq<string>)
    ensures |parts| >= 1
    ensures forall i :: 0 <= i < |parts| ==> sep !in parts[i]
    decreases |s|
  {
    if |s| == 0 then [""]
    else
      var rest := Split(s[1..], sep);
      if s[0] == sep then [""] + rest
      else [[s[0]] + rest[0]] + rest[1..]
  }

  /** Python's `sep.join(parts)`. */
  function Join(parts: seq<string>, sep: char): string
    requires |parts| >= 1
  {
    if |parts| == 1 then parts[0] else parts[0] + [sep] + Join(parts[1..], sep)
  }

  lemma JoinCons(w: string, rest: seq<string>, sep: char)
    requires |rest| >= 1
    ensures Join([w] + rest, sep) == w + [sep] + Join(rest, sep)
  {
    assert ([w] + rest)[1..] == rest;
  }

  /** Joining the parts of a split with the separator gives the string back;
      there are at least two parts exactly when the separator occurs. */
  lemma {:induction false} JoinSplit(s: string, sep: char)
    ensures Join(Split(s, sep), sep) == s
    ensures |Split(s, sep)| >= 2 <==> sep in s
    decreases |s|
  {
    if |s| > 0 {
      var rest := Split(s[1..], sep);
      JoinSplit(s[1..], sep);
      assert s == [s[0]] + s[1..];
      if s[0] == sep {
        JoinCons("", rest, sep);
      } else {
        var parts := [[s[0]] + rest[0]] + rest[1..];
        assert Split(s, sep) == parts;
        assert parts[1..] == rest[1..];
        if |rest| > 1 {
          JoinCons(rest[0], rest[1..], sep);
          JoinCons([s[0]] + rest[0], rest[1..], sep);
          assert [rest[0]] + rest[1..] == rest;
        }
        assert sep in s <==> sep in s[1..];
      }
    }
  }

  /** Splitting a string that starts with a separator-free word `w`. */
  lemma {:induction false} SplitPrefix(w: string, t: string, sep: char)
    requires sep !in w
    ensures Split(w + t, sep) == [w + Split(t, sep)[0]] + Split(t, sep)[1..]
    decreases |w|
  {
    var st := Split(t, sep);
    if |w| > 0 {
      var s := w + t;
      SplitPrefix(w[1..], t, sep);
      assert s[0] == w[0] && s[1..] == w[1..] + t;
      var rest := Split(s[1..], sep);
      assert Split(s, sep) == [[s[0]] + rest[0]] + rest[1..];
      assert rest == [w[1..] + st[0]] + st[1..];
      assert rest[0] == w[1..] + st[0];
      assert rest[1..] == st[1..];
      assert [w[0]] + (w[1..] + st[0]) == w + st[0];
    } else {
      assert w + t == t;
      assert w + st[0] == st[0];
      assert [st[0]] + st[1..] == st;
    }
  }

  /** The other half of the round trip: splitting the join of separator-free
      parts gives the parts back. */
  lemma {:induction false} SplitJoin(parts: seq<string>, sep: char)
    requires |parts| >= 1
    requires forall i :: 0 <= i < |parts| ==> sep !in parts[i]
    ensures Split(Join(parts, sep), sep) == parts
    decreases |parts|
  {
    if |parts| == 1 {
      SplitPrefix(parts[0], "", sep);
      assert parts[0] + "" == parts[0];
    } else {
      var tail := parts[1..];
      SplitJoin(tail, sep);
      var t := [sep] + Join(tail, sep);
      assert parts[0] + [sep] + Join(tail, sep) == parts[0] + t;
      SplitPrefix(parts[0], t, sep);
      assert t[1..] == Join(tail, sep);
      assert Split(t, sep) == [""] + tail;
      assert parts[0] + "" == parts[0];
      assert [parts[0]] + tail == parts;
    }
  }

  /** Each part, lower-cased. */
  function LowerAll(parts: seq<string>): (r: seq<string>)
    ensures |r| == |parts|
  {
    seq(|parts|, i requires 0 <= i < |parts| => Lower(parts[i]))
  }

  /** Lower-casing distributes over joining with a separator that is not a
      letter. */
  lemma {:induction false} LowerJoin(parts: seq<string>, sep: char)
    requires |parts| >= 1 && LowerChar(sep) == sep
    ensures Lower(Join(parts, sep)) == Join(LowerAll(parts), sep)
    decreases |parts|
  {
    if |parts| > 1 {
      LowerJoin(parts[1..], sep);
      assert LowerAll(parts)[1..] == LowerAll(parts[1..]);
      LowerConcat(parts[0] + [sep], Join(parts[1..], sep));
      LowerConcat(parts[0], [sep]);
    }
  }

  /** Splitting commutes with lower-casing when the separator is not a
      letter: `s.lower().split(sep)` is `s.split(sep)` with each part
      lower-cased. */
  lemma SplitLower(s: string, sep: char)
    requires !('A' <= sep <= 'Z') && !('a' <= sep <= 'z')
    ensures Split(Lower(s), sep) == LowerAll(Split(s, sep))
  {
    var parts := Split(s, sep);
    JoinSplit(s, sep);
    LowerJoin(parts, sep);
    var lowered := LowerAll(parts);
    assert forall i :: 0 <= i < |lowered| ==> sep !in lowered[i];
    SplitJoin(lowered, sep);
  }

  /** The position of the first `c` in `s` (Python's `s.index(c)`). */
  function IndexOf(s: string, c: char): (i: nat)
    requires c in s
    ensures i < |s| && s[i] == c && c !in s[..i]
  {
    if s[0] == c then 0
    else
      assert s == [s[0]] + s[1..];
      assert s[..1 + IndexOf(s[1..], c)] == [s[0]] + s[1..][..IndexOf(s[1..], c)];
      1 + IndexOf(s[1..], c)
  }

  /** Any position holding the first `c` is the one `IndexOf` finds. */
  lemma IndexOfFirst(s: string, c: char, i: nat)
    requires i < |s| && s[i] == c && c !in s[..i]
    ensures IndexOf(s, c) == i
  {
  }
}
