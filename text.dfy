/**
  The string operations the handler relies on: splitting on a one-character
  delimiter (Go's strings.Split), trimming white space (strings.TrimSpace),
  decimal rendering of an index (fmt's %d), and the removal of `[digits]`
  groups (the regular expression `\[\d+\]` replaced by "").
 */
module Text {

  // ---------------------------------------------------------------------------
  // Characters
  // ---------------------------------------------------------------------------

  /** Go's unicode.IsSpace: the characters with the Unicode White_Space property. */
  predicate IsSpace(c: char) {
    || c == ' ' || c == '\t' || c == '\n' || c == '\r'
    || c == '\U{000B}' || c == '\U{000C}' || c == '\U{0085}' || c == '\U{00A0}'
    || c == '\U{1680}' || ('\U{2000}' <= c <= '\U{200A}')
    || c == '\U{2028}' || c == '\U{2029}' || c == '\U{202F}' || c == '\U{205F}'
    || c == '\U{3000}'
  }

  /** The ASCII digits, which is what `\d` matches in Go's regexp syntax. */
  predicate IsDigit(c: char) {
    '0' <= c <= '9'
  }

  predicate AllSpace(s: string) {
    forall i :: 0 <= i < |s| ==> IsSpace(s[i])
  }

  predicate AllDigits(s: string) {
    forall i :: 0 <= i < |s| ==> IsDigit(s[i])
  }

  // ---------------------------------------------------------------------------
  // strings.Split with a one-character separator, and its inverse
  // ---------------------------------------------------------------------------

  function CountChar(s: string, d: char): nat {
    if |s| == 0 then 0 else (if s[0] == d then 1 else 0) + CountChar(s[1..], d)
  }

  /**
    The pieces of `s` between occurrences of `d`, in order. As in Go, the
    empty string gives one empty piece and adjacent delimiters give empty
    pieces.
   */
  function SplitOn(s: string, d: char): (parts: seq<string>)
    ensures |parts| == CountChar(s, d) + 1
    ensures forall i :: 0 <= i < |parts| ==> d !in parts[i]
    decreases |s|
  {
    if |s| == 0 then [""]
    else
      var rest := SplitOn(s[1..], d);
      if s[0] == d then [""] + rest
      else [[s[0]] + rest[0]] + rest[1..]
  }

  /** The pieces put back together with `d` between neighbours. */
  function Join(parts: seq<string>, d: char): string
    requires |parts| >= 1
  {
    if |parts| == 1 then parts[0]
    else Join(parts[..|parts| - 1], d) + [d] + parts[|parts| - 1]
  }

  lemma {:induction false} SplitOnFree(s: string, d: char)
    requires d !in s
    ensures SplitOn(s, d) == [s]
    decreases |s|
  {
    if |s| > 0 {
      assert d !in s[1..];
      SplitOnFree(s[1..], d);
      assert [s[0]] + s[1..] == s;
    }
  }

  /** Splitting distributes over a delimiter placed between two strings. */
  lemma {:induction false} SplitOnConcat(a: string, b: string, d: char)
    ensures SplitOn(a + [d] + b, d) == SplitOn(a, d) + SplitOn(b, d)
    decreases |a|
  {
    var s := a + [d] + b;
    if |a| == 0 {
      assert s[1..] == b;
    } else {
      assert s[1..] == a[1..] + [d] + b;
      SplitOnConcat(a[1..], b, d);
    }
  }

  lemma {:induction false} JoinConcat(xs: seq<string>, ys: seq<string>, d: char)
    requires |xs| >= 1 && |ys| >= 1
    ensures Join(xs + ys, d) == Join(xs, d) + [d] + Join(ys, d)
    decreases |ys|
  {
    var zs := xs + ys;
    assert zs[..|zs| - 1] == xs + ys[..|ys| - 1];
    if |ys| > 1 {
      JoinConcat(xs, ys[..|ys| - 1], d);
    } else {
      assert zs[..|zs| - 1] == xs;
    }
  }

  /** Splitting a joined list of delimiter-free pieces gives the pieces back. */
  lemma {:induction false} SplitJoin(parts: seq<string>, d: char)
    requires |parts| >= 1
    requires forall i :: 0 <= i < |parts| ==> d !in parts[i]
    ensures SplitOn(Join(parts, d), d) == parts
    decreases |parts|
  {
    var n := |parts|;
    if n == 1 {
      SplitOnFree(parts[0], d);
    } else {
      SplitJoin(parts[..n - 1], d);
      SplitOnFree(parts[n - 1], d);
      SplitOnConcat(Join(parts[..n - 1], d), parts[n - 1], d);
      assert parts == parts[..n - 1] + [parts[n - 1]];
    }
  }

  /** Joining the pieces of a split gives the original string back. */
  lemma {:induction false} JoinSplit(s: string, d: char)
    ensures Join(SplitOn(s, d), d) == s
    decreases |s|
  {
    if |s| > 0 {
      var rest := SplitOn(s[1..], d);
      JoinSplit(s[1..], d);
      assert s == [s[0]] + s[1..];
      if s[0] == d {
        JoinAfterDelim(rest, d);
      } else {
        JoinAfterChar(s[0], rest, d);
      }
    }
  }

  lemma JoinAfterDelim(rest: seq<string>, d: char)
    requires |rest| >= 1
    ensures Join([""] + rest, d) == [d] + Join(rest, d)
  {
    JoinConcat([""], rest, d);
  }

  lemma JoinAfterChar(c: char, rest: seq<string>, d: char)
    requires |rest| >= 1
    ensures Join([[c] + rest[0]] + rest[1..], d) == [c] + Join(rest, d)
  {
    if |rest| > 1 {
      JoinConcat([[c] + rest[0]], rest[1..], d);
      JoinConcat([rest[0]], rest[1..], d);
      assert rest == [rest[0]] + rest[1..];
    } else {
      assert [[c] + rest[0]] + rest[1..] == [[c] + rest[0]];
    }
  }

  /** Index of the last occurrence of `d` in `s`, or -1 (Go's strings.LastIndex). */
  function LastIndexOf(s: string, d: char): (r: int)
    ensures -1 <= r < |s|
    ensures r >= 0 ==> s[r] == d && d !in s[r + 1..]
    ensures r == -1 ==> d !in s
  {
    if |s| == 0 then -1
    else if s[|s| - 1] == d then |s| - 1
    else
      var r := LastIndexOf(s[..|s| - 1], d);
      assert s[r + 1..] == s[..|s| - 1][r + 1..] + [s[|s| - 1]];
      r
  }

  /** In a join of two or more pieces the last delimiter ends the first n - 1 pieces. */
  lemma JoinLastIndex(parts: seq<string>, d: char)
    requires |parts| >= 2
    requires d !in parts[|parts| - 1]
    ensures var s := Join(parts, d); var k := |Join(parts[..|parts| - 1], d)|;
      LastIndexOf(s, d) == k && s[..k] == Join(parts[..|parts| - 1], d) && s[k + 1..] == parts[|parts| - 1]
  {
    var s := Join(parts, d);
    var k := |Join(parts[..|parts| - 1], d)|;
    var r := LastIndexOf(s, d);
    assert s[k] == d;
    assert s[k + 1..] == parts[|parts| - 1];
  }

  // ---------------------------------------------------------------------------
  // strings.TrimSpace
  // ---------------------------------------------------------------------------

  function TrimLeft(s: string): (r: string)
    ensures |r| <= |s| && r == s[|s| - |r|..]
    ensures AllSpace(s[..|s| - |r|])
    ensures r == [] || !IsSpace(r[0])
  {
    if |s| > 0 && IsSpace(s[0]) then
      var r := TrimLeft(s[1..]);
      assert s[..|s| - |r|] == [s[0]] + s[1..][..|s| - 1 - |r|];
      r
    else s
  }

  function TrimRight(s: string): (r: string)
    ensures |r| <= |s| && r == s[..|r|]
    ensures AllSpace(s[|r|..])
    ensures r == [] || !IsSpace(r[|r| - 1])
  {
    if |s| > 0 && IsSpace(s[|s| - 1]) then
      var r := TrimRight(s[..|s| - 1]);
      assert s[|r|..] == s[..|s| - 1][|r|..] + [s[|s| - 1]];
      r
    else s
  }

  /** `s` with its leading and trailing white space removed. */
  function TrimSpace(s: string): (r: string)
    ensures |r| <= |s|
    ensures r == [] || (!IsSpace(r[0]) && !IsSpace(r[|r| - 1]))
  {
    TrimRight(TrimLeft(s))
  }

  /** `r` is the piece of `s` starting at `i`, with only white space around it. */
  predicate TrimmedAt(s: string, r: string, i: nat) {
    i + |r| <= |s| && r == s[i..i + |r|] && AllSpace(s[..i]) && AllSpace(s[i + |r|..])
  }

  /**
    What is left after trimming is a contiguous piece of `s`, and everything
    cut away on either side is white space.
   */
  lemma TrimSpacePiece(s: string)
    ensures TrimmedAt(s, TrimSpace(s), |s| - |TrimLeft(s)|)
  {
    var l := TrimLeft(s);
    TrimmedAtOf(s, |s| - |l|, l, TrimRight(l));
  }

  /** Trimming the front to the suffix `l` and then the back of `l` to `r` leaves `r` trimmed out of `s`. */
  lemma TrimmedAtOf(s: string, i: nat, l: string, r: string)
    requires i <= |s| && l == s[i..] && AllSpace(s[..i])
    requires |r| <= |l| && r == l[..|r|] && AllSpace(l[|r|..])
    ensures TrimmedAt(s, r, i)
  {
    assert l[..|r|] == s[i..i + |r|];
    assert l[|r|..] == s[i + |r|..];
  }

  /** Trimming adds no character that was not there. */
  lemma TrimSpaceKeepsOut(s: string, c: char)
    requires c !in s
    ensures c !in TrimSpace(s)
  {
    TrimSpacePiece(s);
    var i := |s| - |TrimLeft(s)|;
    assert TrimSpace(s) == s[i..i + |TrimSpace(s)|];
  }

  /** A string that neither starts nor ends with white space is left alone. */
  lemma TrimSpaceNoEdges(s: string)
    requires s == [] || (!IsSpace(s[0]) && !IsSpace(s[|s| - 1]))
    ensures TrimSpace(s) == s
  {
  }

  lemma TrimSpaceIdempotent(s: string)
    ensures TrimSpace(TrimSpace(s)) == TrimSpace(s)
  {
    TrimSpaceNoEdges(TrimSpace(s));
  }

  // ---------------------------------------------------------------------------
  // Decimal rendering of an index (fmt's %d on a non-negative int)
  // ---------------------------------------------------------------------------

  function DigitChar(n: nat): (c: char)
    requires n < 10
    ensures IsDigit(c)
  {
    (48 + n) as char
  }

  function DigitValue(c: char): nat
    requires IsDigit(c)
  {
    (c as int) - 48
  }

  /** The decimal numeral of `n`: only digits, and no leading zero. */
  function ShowNat(n: nat): (s: string)
    ensures |s| >= 1 && AllDigits(s)
    ensures |s| == 1 || s[0] != '0'
  {
    if n < 10 then [DigitChar(n)] else ShowNat(n / 10) + [DigitChar(n % 10)]
  }

  function ParseNat(s: string): nat
    requires AllDigits(s)
  {
    if |s| == 0 then 0 else 10 * ParseNat(s[..|s| - 1]) + DigitValue(s[|s| - 1])
  }

  lemma {:induction false} ParseShowNat(n: nat)
    ensures ParseNat(ShowNat(n)) == n
  {
    var s := ShowNat(n);
    if n >= 10 {
      ParseShowNat(n / 10);
      assert s[..|s| - 1] == ShowNat(n / 10);
    }
  }

  // ---------------------------------------------------------------------------
  // removeArrayIndices: the regular expression `\[\d+\]` replaced by ""
  // ---------------------------------------------------------------------------

  /** Length of the run of ASCII digits that starts `s`. */
  function DigitRun(s: string): (n: nat)
    ensures n <= |s| && AllDigits(s[..n])
    ensures n == |s| || !IsDigit(s[n])
  {
    if |s| > 0 && IsDigit(s[0]) then 1 + DigitRun(s[1..]) else 0
  }

  /**
    Length of the match of `\[\d+\]` at the very start of `s`, or 0 when the
    pattern does not match there. The digit run is greedy and a digit is never
    a `]`, so the match, when there is one, is unique.
   */
  function IndexGroupAt(s: string): (n: nat)
    ensures n == 0 || (3 <= n <= |s| && s[0] == '[' && s[n - 1] == ']' && AllDigits(s[1..n - 1]))
  {
    if |s| > 0 && s[0] == '[' then
      var k := DigitRun(s[1..]);
      if k > 0 && 1 + k < |s| && s[1 + k] == ']' then
        assert s[1..k + 1] == s[1..][..k];
        k + 2
      else 0
    else 0
  }

  /**
    Every leftmost non-overlapping `[digits]` group removed, scanning from the
    left as Go's ReplaceAllString does.
   */
  function StripIndices(s: string): (r: string)
    ensures |r| <= |s|
    decreases |s|
  {
    if |s| == 0 then ""
    else
      var n := IndexGroupAt(s);
      if n > 0 then StripIndices(s[n..]) else [s[0]] + StripIndices(s[1..])
  }

  /** A string with no `[` is left alone. */
  lemma {:induction false} StripNoBracket(s: string)
    requires '[' !in s
    ensures StripIndices(s) == s
    decreases |s|
  {
    if |s| > 0 {
      assert '[' !in s[1..];
      StripNoBracket(s[1..]);
      assert s == [s[0]] + s[1..];
    }
  }

  /** A bracket-free prefix passes through unchanged. */
  lemma {:induction false} StripBracketFreePrefix(a: string, b: string)
    requires '[' !in a
    ensures StripIndices(a + b) == a + StripIndices(b)
    decreases |a|
  {
    if |a| > 0 {
      var s := a + b;
      assert s[0] == a[0] && IndexGroupAt(s) == 0;
      assert StripIndices(s) == [a[0]] + StripIndices(s[1..]);
      assert s[1..] == a[1..] + b;
      assert '[' !in a[1..];
      StripBracketFreePrefix(a[1..], b);
      assert a == [a[0]] + a[1..];
    } else {
      assert a + b == b;
    }
  }

  /** A non-empty run of ASCII digits: what `\d+` matches. */
  predicate Numeral(digits: string) {
    |digits| >= 1 && AllDigits(digits)
  }

  /** The text `[digits]`. */
  function Group(digits: string): string {
    "[" + digits + "]"
  }

  /** The text `[n]` as fmt.Sprintf("[%d]", n) writes it. */
  function IndexGroup(n: nat): string {
    Group(ShowNat(n))
  }

  /** A run of groups, one per numeral. */
  function Groups(ds: seq<string>): string {
    if |ds| == 0 then "" else Group(ds[0]) + Groups(ds[1..])
  }

  lemma {:induction false} DigitRunOf(digits: string, rest: string)
    requires AllDigits(digits)
    requires rest == [] || !IsDigit(rest[0])
    ensures DigitRun(digits + rest) == |digits|
    decreases |digits|
  {
    if |digits| > 0 {
      assert (digits + rest)[1..] == digits[1..] + rest;
      DigitRunOf(digits[1..], rest);
    } else {
      assert digits + rest == rest;
    }
  }

  /** A `[digits]` group at the start of `s` is found, whatever its digits. */
  lemma IndexGroupAtComplete(s: string, k: nat)
    requires 3 <= k <= |s| && s[0] == '[' && s[k - 1] == ']' && AllDigits(s[1..k - 1])
    ensures IndexGroupAt(s) == k
  {
    assert s[1..] == s[1..k - 1] + s[k - 1..];
    DigitRunOf(s[1..k - 1], s[k - 1..]);
  }

  /** A group at the front is removed whole. */
  lemma StripGroup(digits: string, rest: string)
    requires Numeral(digits)
    ensures StripIndices(Group(digits) + rest) == StripIndices(rest)
  {
    var s := Group(digits) + rest;
    var k := |digits| + 2;
    assert s[1..k - 1] == digits;
    IndexGroupAtComplete(s, k);
    assert s[k..] == rest;
  }

  lemma {:induction false} StripGroups(ds: seq<string>)
    requires forall i :: 0 <= i < |ds| ==> Numeral(ds[i])
    ensures StripIndices(Groups(ds)) == ""
    decreases |ds|
  {
    if |ds| > 0 {
      StripGroup(ds[0], Groups(ds[1..]));
      StripGroups(ds[1..]);
    }
  }

  /** A bracket-free key followed by any number of `[digits]` groups strips to the key. */
  lemma StripKeyWithIndices(key: string, ds: seq<string>)
    requires '[' !in key
    requires forall i :: 0 <= i < |ds| ==> Numeral(ds[i])
    ensures StripIndices(key + Groups(ds)) == key
  {
    StripBracketFreePrefix(key, Groups(ds));
    StripGroups(ds);
  }

  /** Leading zeros make no difference: `a[007]` strips to `a`. */
  lemma StripPaddedIndex()
    ensures StripIndices("a[007]") == "a"
  {
    assert "a[007]" == "a" + Groups(["007"]);
    StripKeyWithIndices("a", ["007"]);
  }

  /** A key with one index group, as collectKeys writes it, strips to the key. */
  lemma StripIndexedKey(key: string, n: nat)
    requires '[' !in key
    ensures StripIndices(key + IndexGroup(n)) == key
  {
    assert Groups([ShowNat(n)]) == IndexGroup(n);
    StripKeyWithIndices(key, [ShowNat(n)]);
  }

  /** An indexed key that does not start with white space has no edges to trim. */
  lemma IndexedNoEdges(key: string, n: nat)
    requires key == [] || !IsSpace(key[0])
    ensures TrimSpace(key + IndexGroup(n)) == key + IndexGroup(n)
  {
    var t := key + IndexGroup(n);
    assert t[|t| - 1] == ']';
    if key == [] {
      assert t[0] == '[';
    } else {
      assert t[0] == key[0];
    }
    TrimSpaceNoEdges(t);
  }

  /**
    Stripping is not idempotent: removing the inner group of `[1[2]]` leaves a
    new group `[1]`, which a second pass removes.
   */
  lemma StripNotIdempotent()
    ensures StripIndices("[1[2]]") == "[1]"
    ensures StripIndices(StripIndices("[1[2]]")) == ""
  {
    StripNested();
    StripGroup("1", "");
    assert Group("1") + "" == "[1]";
  }

  /** One pass over `[1[2]]` keeps `[1` (no `]` follows the 1) and removes `[2]`. */
  lemma StripNested()
    ensures StripIndices("[1[2]]") == "[1]"
  {
    var s := "[1[2]]";
    assert IndexGroupAt(s) == 0 by {
      assert s[1..] == "1[2]]";
      assert DigitRun(s[1..]) == 1 by {
        assert s[1..][1..] == "[2]]";
      }
    }
    assert s[1..] == "1[2]]";
    var t := "1[2]]";
    assert IndexGroupAt(t) == 0;
    assert t[1..] == "[2]]";
    StripGroup("2", "]");
    assert Group("2") + "]" == "[2]]";
    assert StripIndices("]") == "]";
  }
}
