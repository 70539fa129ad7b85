/** The string operations of the Markdown reader. */
module SourceText {

  /** White space, for `strip` as for `\s`. */
  predicate IsSpace(c: char) {
    var n := c as int;
    || 9 <= n <= 13 || 28 <= n <= 32 || n == 0x85 || n == 0xA0 || n == 0x1680 || 0x2000 <= n <= 0x200A
    || n == 0x2028 || n == 0x2029 || n == 0x202F || n == 0x205F || n == 0x3000
  }

  /** The code points that are white space. */
  lemma SpacesAre(c: char)
    ensures IsSpace(c) <==> c as int in {
      9, 10, 11, 12, 13, 28, 29, 30, 31, 32, 0x85, 0xA0, 0x1680, 0x2000, 0x2001, 0x2002, 0x2003, 0x2004, 0x2005, 0x2006, 0x2007,
      0x2008, 0x2009, 0x200A, 0x2028, 0x2029, 0x202F, 0x205F, 0x3000}
  {
  }

  predicate IsBar(c: char) { c == '|' }

  /** The first character from `i` on that is kept. */
  function SkipForward(s: string, i: nat, drop: char -> bool): (r: nat)
    requires i <= |s|
    ensures i <= r <= |s|
    decreases |s| - i
  {
    if i < |s| && drop(s[i]) then SkipForward(s, i + 1, drop) else i
  }

  /** The end of the last character before `i` that is kept. */
  function SkipBack(s: string, i: nat, drop: char -> bool): (r: nat)
    requires i <= |s|
    ensures r <= i
  {
    if i > 0 && drop(s[i - 1]) then SkipBack(s, i - 1, drop) else i
  }

  lemma {:induction false} SkippedForward(s: string, i: nat, drop: char -> bool)
    requires i <= |s|
    ensures var r := SkipForward(s, i, drop); (r < |s| ==> !drop(s[r])) && forall j :: i <= j < r ==> drop(s[j])
    decreases |s| - i
  {
    if i < |s| && drop(s[i]) { SkippedForward(s, i + 1, drop); }
  }

  lemma {:induction false} SkippedBack(s: string, i: nat, drop: char -> bool)
    requires i <= |s|
    ensures var r := SkipBack(s, i, drop); (r > 0 ==> !drop(s[r - 1])) && forall j :: r <= j < i ==> drop(s[j])
  {
    if i > 0 && drop(s[i - 1]) { SkippedBack(s, i - 1, drop); }
  }

  /** Where the first kept character is. */
  lemma ForwardTo(s: string, i: nat, n: nat, drop: char -> bool)
    requires i <= n <= |s| && (n < |s| ==> !drop(s[n])) && forall j :: i <= j < n ==> drop(s[j])
    ensures SkipForward(s, i, drop) == n
  {
    SkippedForward(s, i, drop);
  }

  lemma BackTo(s: string, i: nat, n: nat, drop: char -> bool)
    requires n <= i <= |s| && (n > 0 ==> !drop(s[n - 1])) && forall j :: n <= j < i ==> drop(s[j])
    ensures SkipBack(s, i, drop) == n
  {
    SkippedBack(s, i, drop);
  }

  function Trim(s: string, drop: char -> bool): string {
    var start, end := SkipForward(s, 0, drop), SkipBack(s, |s|, drop);
    if start <= end then s[start..end] else []
  }

  function Strip(s: string): string { Trim(s, IsSpace) }

  /** Stripping leaves nothing exactly of white space. */
  lemma StripIsBlank(s: string)
    ensures Strip(s) != "" <==> exists i :: 0 <= i < |s| && !IsSpace(s[i])
  {
    SkippedForward(s, 0, IsSpace);
    SkippedBack(s, |s|, IsSpace);
  }

  /** Position of the first such character, or the length. */
  function IndexOf(s: string, c: char): (i: nat)
    ensures i <= |s|
  {
    SkipForward(s, 0, OtherThan(c))
  }

  function OtherThan(c: char): char -> bool { x => x != c }

  lemma IndexIs(s: string, c: char)
    ensures var i := IndexOf(s, c); (i < |s| ==> s[i] == c) && c !in s[..i]
  {
    SkippedForward(s, 0, OtherThan(c));
  }

  function Split(s: string, c: char): (parts: seq<string>)
    ensures |parts| >= 1
    decreases |s|
  {
    var i := IndexOf(s, c);
    if i == |s| then [s] else [s[..i]] + Split(s[i + 1..], c)
  }

  function Join(parts: seq<string>, separator: string): string {
    if parts == [] then ""
    else if |parts| == 1 then parts[0]
    else Join(parts[..|parts| - 1], separator) + separator + parts[|parts| - 1]
  }

  predicate StartsWith(s: string, prefix: string) { |prefix| <= |s| && s[..|prefix|] == prefix }

  function RemovePrefix(s: string, prefix: string): string {
    if StartsWith(s, prefix) then s[|prefix|..] else s
  }

  predicate IsDigit(c: char) { '0' <= c <= '9' }

  // ----- parts of a text -----

  predicate Trimmed(s: string) { s != "" ==> !IsSpace(s[0]) && !IsSpace(s[|s| - 1]) }

  predicate Blanks(s: string) { forall i :: 0 <= i < |s| ==> s[i] == ' ' }

  lemma StripPadded(a: string, s: string, b: string)
    requires Blanks(a) && Blanks(b) && Trimmed(s)
    ensures Strip(a + s + b) == s
  {
    var t := a + s + b;
    assert forall i :: 0 <= i < |a| ==> t[i] == a[i];
    assert forall i :: 0 <= i < |b| ==> t[|a| + |s| + i] == b[i];
    if s != "" {
      assert t[|a|] == s[0] && t[|a| + |s| - 1] == s[|s| - 1];
      ForwardTo(t, 0, |a|, IsSpace);
      BackTo(t, |t|, |a| + |s|, IsSpace);
    } else {
      ForwardTo(t, 0, |t|, IsSpace);
    }
  }

  lemma StripTrimmed(s: string)
    requires Trimmed(s)
    ensures Strip(s) == s
  {
    StripPadded("", s, "");
    assert "" + s + "" == s;
  }

  lemma IndexAt(a: string, c: char, b: string)
    requires c !in a
    ensures IndexOf(a + [c] + b, c) == |a|
  {
    var s := a + [c] + b;
    assert s[|a|] == c && forall i :: 0 <= i < |a| ==> s[i] == a[i];
    ForwardTo(s, 0, |a|, OtherThan(c));
  }

  lemma IndexNone(s: string, c: char)
    ensures IndexOf(s, c) == |s| <==> c !in s
  {
    IndexIs(s, c);
    assert s[..|s|] == s;
  }

  lemma SplitAt(a: string, c: char, b: string)
    requires c !in a
    ensures Split(a + [c] + b, c) == [a] + Split(b, c)
  {
    IndexAt(a, c, b);
    var s := a + [c] + b;
    assert s[..|a|] == a && s[|a| + 1..] == b;
  }

  lemma {:induction false} JoinFront(first: string, rest: seq<string>, separator: string)
    requires rest != []
    ensures Join([first] + rest, separator) == first + separator + Join(rest, separator)
    decreases |rest|
  {
    var parts := [first] + rest;
    if |rest| > 1 {
      var init := rest[..|rest| - 1];
      JoinFront(first, init, separator);
      assert parts[..|parts| - 1] == [first] + init;
    } else {
      assert parts[..1] == [first];
    }
  }

  lemma {:induction false} JoinConcat(a: seq<string>, b: seq<string>, separator: string)
    requires a != [] && b != []
    ensures Join(a + b, separator) == Join(a, separator) + separator + Join(b, separator)
    decreases |b|
  {
    if |b| > 1 {
      JoinConcat(a, b[..|b| - 1], separator);
      assert (a + b)[..|a + b| - 1] == a + b[..|b| - 1];
    } else {
      assert (a + b)[..|a + b| - 1] == a;
    }
  }

  /** Splitting a joined text gives its parts back. */
  lemma {:induction false} SplitOfJoin(parts: seq<string>, c: char)
    requires parts != [] && forall part :: part in parts ==> c !in part
    ensures Split(Join(parts, [c]), c) == parts
    decreases |parts|
  {
    var first, rest := parts[0], parts[1..];
    assert first in parts && forall part :: part in rest ==> part in parts;
    if rest == [] {
      IndexNone(first, c);
    } else {
      assert parts == [first] + rest;
      JoinFront(first, rest, [c]);
      SplitAt(first, c, Join(rest, [c]));
      SplitOfJoin(rest, c);
    }
  }

  /** And joining the parts of a text gives the text. */
  lemma {:induction false} JoinOfSplit(s: string, c: char)
    ensures Join(Split(s, c), [c]) == s && forall part :: part in Split(s, c) ==> c !in part
    decreases |s|
  {
    var i := IndexOf(s, c);
    IndexIs(s, c);
    if i == |s| {
      assert s[..i] == s;
    } else {
      JoinOfSplit(s[i + 1..], c);
      JoinFront(s[..i], Split(s[i + 1..], c), [c]);
      assert s == s[..i] + [c] + s[i + 1..];
    }
  }

  // ----- collapsing white space -----

  function Squeeze(s: string): string
    decreases |s|
  {
    if s == [] then []
    else if IsSpace(s[0]) then [' '] + Squeeze(s[SkipForward(s, 1, IsSpace)..])
    else [s[0]] + Squeeze(s[1..])
  }

  /** Every run of white space becomes one blank; none is left at either end. */
  function Collapse(s: string): string { Strip(Squeeze(s)) }

  ghost predicate Spaced(s: string) {
    forall i :: 0 <= i < |s| && IsSpace(s[i]) ==> s[i] == ' ' && (i + 1 < |s| ==> !IsSpace(s[i + 1]))
  }

  ghost predicate Tidy(s: string) {
    Spaced(s) && (s != [] ==> !IsSpace(s[0]) && !IsSpace(s[|s| - 1]))
  }

  lemma {:induction false} SqueezeSpaces(s: string)
    ensures Spaced(Squeeze(s))
    ensures s != [] && !IsSpace(s[0]) ==> Squeeze(s) != [] && !IsSpace(Squeeze(s)[0])
    ensures s == [] ==> Squeeze(s) == []
    decreases |s|
  {
    if s != [] {
      if IsSpace(s[0]) { SkippedForward(s, 1, IsSpace); }
      SqueezeSpaces(if IsSpace(s[0]) then s[SkipForward(s, 1, IsSpace)..] else s[1..]);
    }
  }

  lemma CollapseIsTidy(s: string)
    ensures Tidy(Collapse(s))
  {
    SqueezeSpaces(s);
    SkippedForward(Squeeze(s), 0, IsSpace);
    SkippedBack(Squeeze(s), |Squeeze(s)|, IsSpace);
  }

  lemma {:induction false} SqueezeKeeps(s: string)
    requires Spaced(s)
    ensures Squeeze(s) == s
    decreases |s|
  {
    if s != [] {
      assert SkipForward(s, 1, IsSpace) == 1 || !IsSpace(s[0]);
      SqueezeKeeps(s[1..]);
    }
  }

  /** Collapsing again changes nothing. */
  lemma TidyIsCollapsed(s: string)
    requires Tidy(s)
    ensures Collapse(s) == s
  {
    SqueezeKeeps(s);
  }

  // ----- decimal numerals -----

  function Decimal(n: nat): (d: string)
    ensures |d| >= 1 && forall i :: 0 <= i < |d| ==> IsDigit(d[i])
  {
    var last := [('0' as int + n % 10) as char];
    if n < 10 then last else Decimal(n / 10) + last
  }

  lemma {:induction false} DecimalInjective(m: nat, n: nat)
    requires Decimal(m) == Decimal(n)
    ensures m == n
    decreases m
  {
    var a, b := Decimal(m), Decimal(n);
    assert a[|a| - 1] == b[|b| - 1];
    assert m % 10 == n % 10;
    assert (m >= 10 <==> |a| >= 2) && (n >= 10 <==> |b| >= 2);
    if m >= 10 {
      assert Decimal(m / 10) == a[..|a| - 1] == b[..|b| - 1] == Decimal(n / 10);
      DecimalInjective(m / 10, n / 10);
    }
  }

  function ValueOf(digits: string): int
    requires forall i :: 0 <= i < |digits| ==> IsDigit(digits[i])
  {
    if digits == "" then 0 else 10 * ValueOf(digits[..|digits| - 1]) + (digits[|digits| - 1] as int - '0' as int)
  }

  /** A numeral has the value it was made of, and no zero in front. */
  lemma {:induction false} DecimalReads(n: nat)
    ensures ValueOf(Decimal(n)) == n && (n > 0 ==> Decimal(n)[0] != '0')
  {
    var d := Decimal(n);
    if n >= 10 {
      DecimalReads(n / 10);
      assert d[..|d| - 1] == Decimal(n / 10);
    } else {
      assert d[..0] == "";
    }
  }
}
