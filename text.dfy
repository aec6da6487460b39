/** Character classes, case folding, substring search, trimming and splitting, as the
    regular expressions and string methods of the storefront use them. */
module Text {

  /** `[A-Za-z]` */
  predicate IsAsciiLetter(c: char) {
    'A' <= c <= 'Z' || 'a' <= c <= 'z'
  }

  /** `\d` (JavaScript's `\d` is the ASCII digits only) */
  predicate IsDigit(c: char) {
    '0' <= c <= '9'
  }

  /** JavaScript's `\s`: the white space and line terminator characters; `trim` removes
      the same set. */
  predicate IsSpace(c: char) {
    c == ' ' || c == '\t' || c == '\n' || c == '\r' || c == '\U{B}' || c == '\U{C}'
    || c == '\U{A0}' || c == '\U{1680}' || ('\U{2000}' <= c <= '\U{200A}')
    || c == '\U{2028}' || c == '\U{2029}' || c == '\U{202F}' || c == '\U{205F}'
    || c == '\U{3000}' || c == '\U{FEFF}'
  }

  /** `[A-Za-z\s]` */
  predicate IsLetterOrSpace(c: char) {
    IsAsciiLetter(c) || IsSpace(c)
  }

  /** The special characters a password may and must contain: `[@$!%*?&]`. */
  predicate IsPasswordSymbol(c: char) {
    c == '@' || c == '$' || c == '!' || c == '%' || c == '*' || c == '?' || c == '&'
  }

  /** Whether every character of `s` is in class `cls`, scanning left to right as a regular
      expression `^[cls]*$` does. */
  function AllIn(s: string, cls: char -> bool): (ok: bool)
    ensures ok <==> forall i :: 0 <= i < |s| ==> cls(s[i])
  {
    if s == [] then true
    else cls(s[0]) && AllIn(s[1..], cls)
  }

  /** Whether some character of `s` is in class `cls` (a look-ahead `(?=.*[cls])`). */
  function AnyIn(s: string, cls: char -> bool): (found: bool)
    ensures found <==> exists i :: 0 <= i < |s| && cls(s[i])
  {
    if s == [] then false
    else cls(s[0]) || AnyIn(s[1..], cls)
  }

  /** `^[A-Za-z]+$` */
  predicate LettersOnly(s: string) {
    |s| > 0 && AllIn(s, IsAsciiLetter)
  }

  /** `^[A-Za-z\s]+$`: the rule for a customer's name at registration and for the city and state
      of a delivery address. */
  function LettersAndSpaces(s: string): (ok: bool)
    ensures ok <==> |s| > 0 && forall i :: 0 <= i < |s| ==> IsAsciiLetter(s[i]) || IsSpace(s[i])
  {
    |s| > 0 && AllIn(s, IsLetterOrSpace)
  }

  /** `toLowerCase` on one character (ASCII letters only). */
  function ToLower(c: char): (d: char)
    ensures 'A' <= c <= 'Z' ==> 'a' <= d <= 'z' && d as int == c as int + 32
    ensures !('A' <= c <= 'Z') ==> d == c
  {
    if 'A' <= c <= 'Z' then (c as int + 32) as char else c
  }

  /** The JavaScript `length` of a string: UTF-16 code units, two for a character outside the
      Basic Multilingual Plane. */
  function Utf16Length(s: string): (n: nat)
    ensures |s| <= n <= 2 * |s|
    ensures n == |s| <==> forall i :: 0 <= i < |s| ==> (s[i] as int) < 0x1_0000
  {
    if s == [] then 0
    else
      assert forall i :: 1 <= i < |s| ==> s[1..][i - 1] == s[i];
      (if (s[0] as int) < 0x1_0000 then 1 else 2) + Utf16Length(s[1..])
  }

  /** `toLowerCase` on a string. */
  function Lower(s: string): (r: string)
    ensures |r| == |s|
    ensures forall i :: 0 <= i < |s| ==> r[i] == ToLower(s[i])
  {
    if s == [] then [] else [ToLower(s[0])] + Lower(s[1..])
  }

  /** Equality after lower-casing both sides: the `^email$` regular expression with the `i` flag,
      for an email that holds no regular-expression metacharacters. */
  predicate EqualsIgnoreCase(a: string, b: string) {
    Lower(a) == Lower(b)
  }

  /** `needle` occurs in `hay` starting at index `i`. */
  predicate OccursAt(hay: string, needle: string, i: nat) {
    i + |needle| <= |hay| && hay[i..i + |needle|] == needle
  }

  /** `hay.includes(needle)` */
  predicate Contains(hay: string, needle: string) {
    exists i: nat | i <= |hay| :: OccursAt(hay, needle, i)
  }

  /** Every string includes the empty string. */
  lemma ContainsEmpty(hay: string)
    ensures Contains(hay, "")
  {
    assert OccursAt(hay, "", 0);
  }

  /** The middle part of a concatenation occurs where the first part ends. */
  lemma MiddleOccurs(pre: string, mid: string, post: string)
    ensures OccursAt(pre + mid + post, mid, |pre|)
  {
    assert (pre + mid + post)[|pre|..|pre| + |mid|] == mid;
  }

  /** Lower-casing keeps an occurrence: where `needle` occurs in `hay`, its lower-cased form
      occurs in the lower-cased `hay`. */
  lemma LowerKeepsOccurrence(hay: string, needle: string, i: nat)
    requires OccursAt(hay, needle, i)
    ensures OccursAt(Lower(hay), Lower(needle), i)
    ensures Contains(Lower(hay), Lower(needle))
  {
    var lh, ln := Lower(hay), Lower(needle);
    assert forall j :: 0 <= j < |needle| ==> hay[i + j] == needle[j];
    assert lh[i..i + |ln|] == ln;
    assert OccursAt(lh, ln, i);
  }

  /** The lower-cased middle part of a concatenation occurs in the lower-cased whole. */
  lemma LowerKeepsMiddle(pre: string, mid: string, post: string)
    ensures Contains(Lower(pre + mid + post), Lower(mid))
  {
    MiddleOccurs(pre, mid, post);
    LowerKeepsOccurrence(pre + mid + post, mid, |pre|);
  }

  /** Two strings that differ only in the case of their letters lower-case to the same string. */
  predicate SameIgnoringCase(a: string, b: string) {
    |a| == |b| && forall i :: 0 <= i < |a| ==> ToLower(a[i]) == ToLower(b[i])
  }

  lemma SameIgnoringCaseLower(a: string, b: string)
    requires SameIgnoringCase(a, b)
    ensures Lower(a) == Lower(b)
  {
    var la, lb := Lower(a), Lower(b);
    assert |la| == |lb|;
    forall i | 0 <= i < |la| ensures la[i] == lb[i] {
    }
  }

  /** Removes the leading run of `\s` characters. */
  function TrimStart(s: string): (r: string)
    ensures |r| <= |s| && r == s[|s| - |r|..]
    ensures forall i :: 0 <= i < |s| - |r| ==> IsSpace(s[i])
    ensures r != [] ==> !IsSpace(r[0])
  {
    if s != [] && IsSpace(s[0]) then TrimStart(s[1..]) else s
  }

  /** Removes the trailing run of `\s` characters. */
  function TrimEnd(s: string): (r: string)
    ensures |r| <= |s| && r == s[..|r|]
    ensures forall i :: |r| <= i < |s| ==> IsSpace(s[i])
    ensures r != [] ==> !IsSpace(r[|r| - 1])
  {
    if s != [] && IsSpace(s[|s| - 1]) then TrimEnd(s[..|s| - 1]) else s
  }

  /** `r` is `s[a..b]`, and everything outside `a..b` is `\s`. */
  predicate TrimmedFrom(s: string, r: string, a: nat, b: nat) {
    && a <= b <= |s| && r == s[a..b]
    && (forall i :: 0 <= i < a ==> IsSpace(s[i]))
    && (forall i :: b <= i < |s| ==> IsSpace(s[i]))
  }

  /** `trim`: a contiguous part of `s` with no `\s` at either end; only `\s` was cut away. */
  function Trim(s: string): (r: string)
    ensures |r| <= |s|
    ensures r != [] ==> !IsSpace(r[0]) && !IsSpace(r[|r| - 1])
    ensures Contains(s, r)
    ensures exists a: nat, b: nat :: TrimmedFrom(s, r, a, b)
  {
    var t := TrimStart(s);
    var r := TrimEnd(t);
    TrimSlice(s, t, r);
    r
  }

  /** Cutting a run of `\s` from the front of `s` and then one from the back leaves the slice of
      `s` between them. */
  lemma TrimSlice(s: string, t: string, r: string)
    requires |t| <= |s| && t == s[|s| - |t|..]
    requires forall i :: 0 <= i < |s| - |t| ==> IsSpace(s[i])
    requires |r| <= |t| && r == t[..|r|]
    requires forall i :: |r| <= i < |t| ==> IsSpace(t[i])
    ensures Contains(s, r)
    ensures TrimmedFrom(s, r, |s| - |t|, |s| - |t| + |r|)
  {
    var k := |s| - |t|;
    PrefixOfSuffixOccurs(s, k, |r|);
    forall i | k + |r| <= i < |s| ensures IsSpace(s[i]) {
      assert s[i] == t[i - k];
    }
  }

  /** A prefix of a suffix of `hay` occurs in `hay` where the suffix starts. */
  lemma PrefixOfSuffixOccurs(hay: string, k: nat, n: nat)
    requires k + n <= |hay|
    ensures hay[k..][..n] == hay[k..k + n]
    ensures OccursAt(hay, hay[k..][..n], k)
    ensures Contains(hay, hay[k..][..n])
  {
    assert hay[k..][..n] == hay[k..k + n];
    assert OccursAt(hay, hay[k..][..n], k);
  }

  /** The suffix of `s` after its leading run of `\s`. */
  function SkipSpaces(s: string): (r: string)
    ensures |r| <= |s| && r == s[|s| - |r|..]
    ensures r != [] ==> !IsSpace(r[0])
    ensures (exists i :: 0 <= i < |s| && !IsSpace(s[i])) ==> r != []
  {
    TrimStart(s)
  }

  /** The pieces of `s` between maximal runs of `\s`, with `cur` the piece read so far:
      `split(/\s+/)` read left to right. */
  function SplitFrom(s: string, cur: string): (terms: seq<string>)
    ensures |terms| >= 1
    decreases |s|
  {
    if s == [] then [cur]
    else if IsSpace(s[0]) then [cur] + SplitFrom(SkipSpaces(s[1..]), [])
    else SplitFrom(s[1..], cur + [s[0]])
  }

  /** `terms.join(" ")` */
  function Join(terms: seq<string>): string
    decreases |terms|
  {
    if terms == [] then []
    else if |terms| == 1 then terms[0]
    else terms[0] + " " + Join(terms[1..])
  }

  /** `s` with every maximal run of `\s` replaced by a single space. */
  function CollapseSpaces(s: string): string
    decreases |s|
  {
    if s == [] then []
    else if IsSpace(s[0]) then " " + CollapseSpaces(SkipSpaces(s[1..]))
    else [s[0]] + CollapseSpaces(s[1..])
  }

  /** Joining a piece in front of at least one more adds it and a space. */
  lemma JoinCons(head: string, tail: seq<string>)
    requires |tail| >= 1
    ensures Join([head] + tail) == head + " " + Join(tail)
  {
    assert ([head] + tail)[1..] == tail;
  }

  /** One step of `SplitFrom` at a `\s`: the piece read so far is closed and the run skipped. */
  lemma SplitFromAtSpace(s: string, cur: string)
    requires s != [] && IsSpace(s[0])
    ensures SplitFrom(s, cur) == [cur] + SplitFrom(SkipSpaces(s[1..]), [])
    ensures CollapseSpaces(s) == " " + CollapseSpaces(SkipSpaces(s[1..]))
  {
  }

  /** One step of `SplitFrom` at any other character: it joins the piece read so far. */
  lemma SplitFromAtOther(s: string, cur: string)
    requires s != [] && !IsSpace(s[0])
    ensures SplitFrom(s, cur) == SplitFrom(s[1..], cur + [s[0]])
    ensures CollapseSpaces(s) == [s[0]] + CollapseSpaces(s[1..])
  {
  }

  /** The join property carries over a run of `\s`, given that it holds after the run. */
  lemma JoinAtSpace(s: string, cur: string)
    requires s != [] && IsSpace(s[0])
    requires Join(SplitFrom(SkipSpaces(s[1..]), [])) == CollapseSpaces(SkipSpaces(s[1..]))
    ensures Join(SplitFrom(s, cur)) == cur + CollapseSpaces(s)
  {
    var c := CollapseSpaces(SkipSpaces(s[1..]));
    SplitFromAtSpace(s, cur);
    JoinCons(cur, SplitFrom(SkipSpaces(s[1..]), []));
    assert cur + " " + c == cur + (" " + c);
  }

  /** Joining the pieces with single spaces gives back the text read so far followed by `s`
      with its runs of `\s` collapsed. */
  lemma {:induction false} SplitFromJoin(s: string, cur: string)
    ensures Join(SplitFrom(s, cur)) == cur + CollapseSpaces(s)
    decreases |s|
  {
    if s == [] {
      assert cur + [] == cur;
    } else if IsSpace(s[0]) {
      var rest := SkipSpaces(s[1..]);
      SplitFromJoin(rest, []);
      assert [] + CollapseSpaces(rest) == CollapseSpaces(rest);
      JoinAtSpace(s, cur);
    } else {
      var c := CollapseSpaces(s[1..]);
      SplitFromAtOther(s, cur);
      SplitFromJoin(s[1..], cur + [s[0]]);
      assert (cur + [s[0]]) + c == cur + ([s[0]] + c);
    }
  }

  /** `s.split(/\s+/)`; like JavaScript, the empty string splits into one empty piece. The pieces
      hold no `\s`, and joined with single spaces they give `s` with its runs of `\s` collapsed. */
  function SplitOnSpaces(s: string): (terms: seq<string>)
    ensures |terms| >= 1
    ensures Join(terms) == CollapseSpaces(s)
    ensures forall t :: t in terms ==> forall i :: 0 <= i < |t| ==> !IsSpace(t[i])
  {
    SplitFromJoin(s, []);
    SplitFromHasNoSpaces(s, []);
    assert [] + CollapseSpaces(s) == CollapseSpaces(s);
    SplitFrom(s, [])
  }

  /** No piece of a split holds a `\s` character. */
  lemma {:induction false} SplitFromHasNoSpaces(s: string, cur: string)
    requires forall i :: 0 <= i < |cur| ==> !IsSpace(cur[i])
    ensures forall t :: t in SplitFrom(s, cur) ==> forall i :: 0 <= i < |t| ==> !IsSpace(t[i])
    decreases |s|
  {
    if s == [] {
    } else if IsSpace(s[0]) {
      SplitFromHasNoSpaces(SkipSpaces(s[1..]), []);
    } else {
      SplitFromHasNoSpaces(s[1..], cur + [s[0]]);
    }
  }

  /** Splitting a string with no `\s` at either end yields no empty piece (unless the string is
      empty). */
  lemma {:induction false} SplitFromHasNoEmptyTerm(s: string, cur: string)
    requires cur != [] || (s != [] && !IsSpace(s[0]))
    requires s != [] ==> !IsSpace(s[|s| - 1])
    ensures forall t :: t in SplitFrom(s, cur) ==> t != []
    decreases |s|
  {
    if s == [] {
    } else if IsSpace(s[0]) {
      var rest := SkipSpaces(s[1..]);
      assert s[1..][|s| - 2] == s[|s| - 1];
      assert rest != [] && rest[|rest| - 1] == s[|s| - 1];
      SplitFromHasNoEmptyTerm(rest, []);
      SplitFromAtSpace(s, cur);
      forall t | t in SplitFrom(s, cur) ensures t != [] {
        assert t == cur || t in SplitFrom(rest, []);
      }
    } else {
      SplitFromHasNoEmptyTerm(s[1..], cur + [s[0]]);
      SplitFromAtOther(s, cur);
    }
  }

  /** The pieces of a trimmed, non-empty string are non-empty and hold no `\s`. */
  lemma SplitTrimmed(s: string)
    requires Trim(s) != []
    ensures forall t :: t in SplitOnSpaces(Trim(s)) ==> t != [] && forall i :: 0 <= i < |t| ==> !IsSpace(t[i])
  {
    SplitFromHasNoSpaces(Trim(s), []);
    SplitFromHasNoEmptyTerm(Trim(s), []);
  }
}
