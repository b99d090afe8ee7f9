/**
 * The few pieces of Python's string behaviour the debugger relies on:
 * str.join, sorted() on strings (code-point lexicographic order), and the
 * decimal conversions str(int) and int(str).
 */
module Text {
  import opened Errors

  // ---------------------------------------------------------------------------
  // str.join

  /** sep.join(parts): the parts in order, with sep between neighbours only. */
  function Join(parts: seq<string>, sep: string): string
  {
    if parts == [] then ""
    else if |parts| == 1 then parts[0]
    else parts[0] + sep + Join(parts[1..], sep)
  }

  /** Appending one more part adds exactly one separator, before that part. */
  lemma {:induction false} JoinSnoc(parts: seq<string>, last: string, sep: string)
    requires parts != []
    ensures Join(parts + [last], sep) == Join(parts, sep) + sep + last
  {
    if |parts| == 1 {
      assert (parts + [last])[1..] == [last];
    } else {
      assert (parts + [last])[1..] == parts[1..] + [last];
      JoinSnoc(parts[1..], last, sep);
    }
  }

  /** Joining one more part of ds: a separator first unless it is the first part. */
  lemma JoinStep(ds: seq<string>, i: nat, sep: string)
    requires i < |ds|
    ensures Join(ds[..i + 1], sep) == Join(ds[..i], sep) + (if 0 < i then sep else "") + ds[i]
  {
    assert ds[..i + 1] == ds[..i] + [ds[i]];
    if i == 0 {
      assert ds[..1] == [ds[0]];
    } else {
      JoinSnoc(ds[..i], ds[i], sep);
    }
  }

  /** The length of a join: every part once, and one separator fewer than parts. */
  lemma {:induction false} JoinLength(parts: seq<string>, sep: string)
    requires parts != []
    ensures |Join(parts, sep)| == TotalLength(parts) + (|parts| - 1) * |sep|
  {
    if |parts| > 1 {
      JoinLength(parts[1..], sep);
    }
  }

  function TotalLength(parts: seq<string>): nat
  {
    if parts == [] then 0 else |parts[0]| + TotalLength(parts[1..])
  }

  // ---------------------------------------------------------------------------
  // sorted() on strings

  /** Python's a <= b on str: code-point lexicographic order. */
  predicate LessEq(a: string, b: string)
  {
    a == [] || (b != [] && (a[0] < b[0] || (a[0] == b[0] && LessEq(a[1..], b[1..]))))
  }

  lemma LessEqReflexive(a: string)
    ensures LessEq(a, a)
  {
  }

  lemma LessEqTotal(a: string, b: string)
    ensures LessEq(a, b) || LessEq(b, a)
  {
  }

  lemma LessEqAntisymmetric(a: string, b: string)
    requires LessEq(a, b) && LessEq(b, a)
    ensures a == b
  {
    if a != [] && b != [] {
      LessEqAntisymmetric(a[1..], b[1..]);
      assert a == [a[0]] + a[1..] && b == [b[0]] + b[1..];
    }
  }

  lemma LessEqTransitive(a: string, b: string, c: string)
    requires LessEq(a, b) && LessEq(b, c)
    ensures LessEq(a, c)
  {
    if a != [] && b != [] && c != [] && a[0] == b[0] == c[0] {
      LessEqTransitive(a[1..], b[1..], c[1..]);
    }
  }

  predicate Sorted(s: seq<string>)
  {
    forall i, j | 0 <= i < j < |s| :: LessEq(s[i], s[j])
  }

  lemma ConsSorted(x: string, s: seq<string>)
    requires Sorted(s) && forall j | 0 <= j < |s| :: LessEq(x, s[j])
    ensures Sorted([x] + s)
  {
    var r := [x] + s;
    forall i, j | 0 <= i < j < |r| ensures LessEq(r[i], r[j]) {
      if i > 0 {
        assert r[i] == s[i - 1] && r[j] == s[j - 1];
      }
    }
  }

  /** A string below the head of a sorted sequence is below all of it. */
  lemma BelowHead(x: string, s: seq<string>)
    requires Sorted(s) && s != [] && LessEq(x, s[0])
    ensures forall j | 0 <= j < |s| :: LessEq(x, s[j])
  {
    forall j | 0 <= j < |s| ensures LessEq(x, s[j]) {
      if j > 0 { LessEqTransitive(x, s[0], s[j]); }
    }
  }

  /**
   * The head of a sorted s is below every element of r, when r holds the tail
   * of s and one more string x above that head.
   */
  lemma HeadBelowInserted(x: string, s: seq<string>, r: seq<string>)
    requires Sorted(s) && s != [] && LessEq(s[0], x)
    requires multiset(r) == multiset(s[1..]) + multiset{x}
    ensures forall j | 0 <= j < |r| :: LessEq(s[0], r[j])
  {
    forall j | 0 <= j < |r| ensures LessEq(s[0], r[j]) {
      assert r[j] in multiset(r);
      if r[j] != x {
        assert r[j] in multiset(s[1..]);
        var k :| 0 <= k < |s[1..]| && s[1..][k] == r[j];
        assert s[k + 1] == r[j];
      }
    }
  }

  function Insert(x: string, s: seq<string>): (r: seq<string>)
    requires Sorted(s)
    ensures Sorted(r) && multiset(r) == multiset(s) + multiset{x}
  {
    if s == [] then [x]
    else if LessEq(x, s[0]) then
      BelowHead(x, s);
      ConsSorted(x, s);
      [x] + s
    else
      LessEqTotal(x, s[0]);
      var rest := Insert(x, s[1..]);
      HeadBelowInserted(x, s, rest);
      ConsSorted(s[0], rest);
      assert s == [s[0]] + s[1..];
      [s[0]] + rest
  }

  /** sorted(s): the same strings, in non-decreasing order. */
  function Sort(s: seq<string>): (r: seq<string>)
    ensures Sorted(r) && multiset(r) == multiset(s)
  {
    if s == [] then []
    else
      assert s == [s[0]] + s[1..];
      Insert(s[0], Sort(s[1..]))
  }

  /** The head of a non-empty sorted sequence is a least element of it. */
  lemma SortedHeadLeast(a: seq<string>, x: string)
    requires Sorted(a) && x in multiset(a)
    ensures LessEq(a[0], x)
  {
    var j :| 0 <= j < |a| && a[j] == x;
    if j == 0 {
      LessEqReflexive(x);
    }
  }

  lemma TailMultiset(a: seq<string>)
    requires a != []
    ensures multiset(a[1..]) == multiset(a) - multiset{a[0]}
  {
    assert a == [a[0]] + a[1..];
  }

  lemma SortedTail(a: seq<string>)
    requires Sorted(a) && a != []
    ensures Sorted(a[1..])
  {
    forall i, j | 0 <= i < j < |a| - 1 ensures LessEq(a[1..][i], a[1..][j]) {
      assert a[1..][i] == a[i + 1] && a[1..][j] == a[j + 1];
    }
  }

  /** A sorted order of a multiset of strings is unique. */
  lemma {:induction false} SortedUnique(a: seq<string>, b: seq<string>)
    requires Sorted(a) && Sorted(b) && multiset(a) == multiset(b)
    ensures a == b
  {
    if a != [] {
      assert b != [] by {
        assert |multiset(b)| == |multiset(a)| == |a|;
      }
      assert a[0] == b[0] by {
        SameHead(a, b);
      }
      assert multiset(a[1..]) == multiset(b[1..]) by {
        TailMultiset(a);
        TailMultiset(b);
      }
      assert Sorted(a[1..]) && Sorted(b[1..]) by {
        SortedTail(a);
        SortedTail(b);
      }
      SortedUnique(a[1..], b[1..]);
      assert a == [a[0]] + a[1..] && b == [b[0]] + b[1..];
    }
  }

  /** Two sorted orders of the same strings start with the same string. */
  lemma SameHead(a: seq<string>, b: seq<string>)
    requires Sorted(a) && Sorted(b) && multiset(a) == multiset(b) && a != [] && b != []
    ensures a[0] == b[0]
  {
    assert a[0] in multiset(b);
    assert b[0] in multiset(a);
    SortedHeadLeast(a, b[0]);
    SortedHeadLeast(b, a[0]);
    LessEqAntisymmetric(a[0], b[0]);
  }

  /** Sorting forgets the order of its input: it depends on the multiset alone. */
  lemma SortPermutation(s: seq<string>, t: seq<string>)
    requires multiset(s) == multiset(t)
    ensures Sort(s) == Sort(t)
  {
    SortedUnique(Sort(s), Sort(t));
  }

  // ---------------------------------------------------------------------------
  // str(int) and int(str)

  predicate IsDigit(c: char) { '0' <= c <= '9' }

  predicate AllDigits(s: string) { forall i | 0 <= i < |s| :: IsDigit(s[i]) }

  function DigitChar(d: nat): (c: char)
    requires d < 10
    ensures IsDigit(c) && c as int - '0' as int == d
  {
    ['0', '1', '2', '3', '4', '5', '6', '7', '8', '9'][d]
  }

  /** The value of a string of decimal digits, most significant first. */
  function DigitsValue(s: string): int
  {
    if s == [] then 0
    else DigitsValue(s[..|s| - 1]) * 10 + (s[|s| - 1] as int - '0' as int)
  }

  /** str(n) for n >= 0: decimal digits, no leading zero. */
  function NatToString(n: nat): (s: string)
    ensures s != [] && AllDigits(s)
  {
    if n < 10 then [DigitChar(n)] else NatToString(n / 10) + [DigitChar(n % 10)]
  }

  /** str(n): a minus sign for negative numbers, then the digits of |n|. */
  function IntToString(n: int): string
  {
    if n < 0 then "-" + NatToString(-n) else NatToString(n)
  }

  /**
   * The characters int() strips from both ends of its argument: the ASCII
   * whitespace \t \n \v \f \r and space, and the other characters Python's
   * str.isspace() accepts above U+007F. U+001C to U+001F, which str.isspace()
   * also accepts, are kept by int() and make it fail.
   */
  predicate IsSpace(c: char)
  {
    || c == ' ' || '\t' <= c <= '\r'
    || c == '\U{85}' || c == '\U{A0}' || c == '\U{1680}' || '\U{2000}' <= c <= '\U{200A}'
    || c == '\U{2028}' || c == '\U{2029}' || c == '\U{202F}' || c == '\U{205F}' || c == '\U{3000}'
  }

  predicate AllSpaces(s: string) { forall i | 0 <= i < |s| :: IsSpace(s[i]) }

  /** s without its leading whitespace. */
  function TrimStart(s: string): string
  {
    if s != [] && IsSpace(s[0]) then TrimStart(s[1..]) else s
  }

  /** s without its trailing whitespace. */
  function TrimEnd(s: string): string
  {
    if s != [] && IsSpace(s[|s| - 1]) then TrimEnd(s[..|s| - 1]) else s
  }

  /** TrimStart drops a run of whitespace from the front, up to the first other character. */
  lemma {:induction false} TrimStartShape(s: string)
    ensures var r := TrimStart(s);
      && |r| <= |s| && r == s[|s| - |r|..] && AllSpaces(s[..|s| - |r|])
      && (r != [] ==> !IsSpace(r[0]))
  {
    if s != [] && IsSpace(s[0]) {
      var r := TrimStart(s[1..]);
      TrimStartShape(s[1..]);
      assert s[..|s| - |r|] == [s[0]] + s[1..][..|s[1..]| - |r|];
    }
  }

  /** TrimEnd drops a run of whitespace from the back, after the last other character. */
  lemma {:induction false} TrimEndShape(s: string)
    ensures var r := TrimEnd(s);
      && |r| <= |s| && r == s[..|r|] && AllSpaces(s[|r|..])
      && (r != [] ==> !IsSpace(r[|r| - 1]))
  {
    if s != [] && IsSpace(s[|s| - 1]) {
      var t := s[..|s| - 1];
      var r := TrimEnd(t);
      TrimEndShape(t);
      assert s[|r|..] == t[|r|..] + [s[|s| - 1]];
    }
  }

  /**
   * Decimal digits in groups joined by single underscores: at least one digit,
   * no underscore first or last, none next to another.
   */
  predicate DigitGroups(s: string)
    decreases |s|
  {
    && s != [] && IsDigit(s[0])
    && (|s| == 1 || if s[1] == '_' then DigitGroups(s[2..]) else DigitGroups(s[1..]))
  }

  /** The digits of s, its underscores left out. */
  function DropUnderscores(s: string): string
  {
    if s == [] then []
    else (if s[0] == '_' then [] else [s[0]]) + DropUnderscores(s[1..])
  }

  /** s.strip() for the whitespace int() ignores. */
  function Strip(s: string): string
  {
    TrimEnd(TrimStart(s))
  }

  /** What Strip leaves neither starts nor ends with whitespace. */
  lemma StripShape(s: string)
    ensures var r := Strip(s); r != [] ==> !IsSpace(r[0]) && !IsSpace(r[|r| - 1])
  {
    TrimStartShape(s);
    TrimEndShape(TrimStart(s));
  }

  /** The value of an optional sign followed by digit groups, if t has that form. */
  function SignedValue(t: string): Option<int>
  {
    var signed := t != [] && (t[0] == '-' || t[0] == '+');
    var body := if signed then t[1..] else t;
    if DigitGroups(body) then
      var magnitude: int := DigitsValue(DropUnderscores(body));
      Some(if signed && t[0] == '-' then -magnitude else magnitude)
    else None
  }

  /**
   * int(s) with the default base 10: surrounding whitespace is ignored, then
   * an optional sign and digit groups; anything else is a ValueError.
   */
  function ParseInt(s: string): Result<int>
  {
    match SignedValue(Strip(s))
    case Some(v) => Ok(v)
    case None => Err(NotAnInteger(s))
  }

  lemma {:induction false} DigitsOfNat(n: nat)
    ensures DigitsValue(NatToString(n)) == n
  {
    if n >= 10 {
      var s := NatToString(n / 10) + [DigitChar(n % 10)];
      assert s[..|s| - 1] == NatToString(n / 10);
      DigitsOfNat(n / 10);
    }
  }

  /** A string of digits has no underscore to drop. */
  lemma {:induction false} DropNoUnderscores(s: string)
    requires AllDigits(s)
    ensures DropUnderscores(s) == s
  {
    if s != [] {
      DropNoUnderscores(s[1..]);
    }
  }

  lemma {:induction false} DropUnderscoresAppend(a: string, b: string)
    ensures DropUnderscores(a + b) == DropUnderscores(a) + DropUnderscores(b)
  {
    if a == [] {
      assert a + b == b;
    } else {
      assert (a + b)[0] == a[0] && (a + b)[1..] == a[1..] + b;
      DropUnderscoresAppend(a[1..], b);
    }
  }

  /** A string that neither starts nor ends with whitespace is its own trimming. */
  lemma TrimmedAlready(t: string)
    requires t != [] ==> !IsSpace(t[0]) && !IsSpace(t[|t| - 1])
    ensures Strip(t) == t
  {
  }

  /** Trimming drops exactly the whitespace around a string that is not itself padded. */
  lemma {:induction false} TrimPadded(pre: string, t: string, post: string)
    requires AllSpaces(pre) && AllSpaces(post)
    requires t != [] ==> !IsSpace(t[0]) && !IsSpace(t[|t| - 1])
    ensures Strip(pre + t + post) == t
  {
    if t == [] {
      assert pre + t + post == pre + post + [];
      TrimStartPadded(pre + post, []);
    } else {
      TrimStartPadded(pre, t + post);
      assert pre + t + post == pre + (t + post);
      TrimEndPadded(t, post);
    }
  }

  lemma {:induction false} TrimStartPadded(pre: string, u: string)
    requires AllSpaces(pre) && (u != [] ==> !IsSpace(u[0]))
    ensures TrimStart(pre + u) == u
  {
    if pre == [] {
      assert pre + u == u;
    } else {
      assert (pre + u)[1..] == pre[1..] + u;
      TrimStartPadded(pre[1..], u);
    }
  }

  lemma {:induction false} TrimEndPadded(t: string, post: string)
    requires AllSpaces(post) && (t != [] ==> !IsSpace(t[|t| - 1]))
    ensures TrimEnd(t + post) == t
  {
    if post == [] {
      assert t + post == t;
    } else {
      var p' := post[..|post| - 1];
      assert (t + post)[..|t + post| - 1] == t + p';
      TrimEndPadded(t, p');
    }
  }

  /** int() looks only at the text without the surrounding whitespace. */
  lemma ParseIntOfStrip(s: string, t: string)
    requires Strip(s) == Strip(t)
    ensures ParseInt(s).Ok? <==> ParseInt(t).Ok?
    ensures ParseInt(t).Ok? ==> ParseInt(s) == ParseInt(t)
  {
  }

  lemma SignedValueOfString(n: int)
    ensures SignedValue(IntToString(n)) == Some(n)
  {
    var m := if n < 0 then -n else n;
    DigitsOfNat(m);
    DropNoUnderscores(NatToString(m));
    DigitsAreGroups(NatToString(m));
    if n < 0 {
      assert IntToString(n)[1..] == NatToString(-n);
    }
  }

  /** int(str(n)) == n. */
  lemma ParseIntToString(n: int)
    ensures ParseInt(IntToString(n)) == Ok(n)
  {
    var s := IntToString(n);
    assert s[0] == '-' || IsDigit(s[0]);
    TrimmedAlready(s);
    SignedValueOfString(n);
  }

  /** int() ignores whitespace around its argument: " 7\n" reads as "7". */
  lemma ParseIntPadded(pre: string, t: string, post: string)
    requires AllSpaces(pre) && AllSpaces(post)
    requires t != [] ==> !IsSpace(t[0]) && !IsSpace(t[|t| - 1])
    ensures ParseInt(pre + t + post).Ok? <==> ParseInt(t).Ok?
    ensures ParseInt(t).Ok? ==> ParseInt(pre + t + post) == ParseInt(t)
  {
    StripPadded(pre, t, post);
    ParseIntOfStrip(pre + t + post, t);
  }

  lemma StripPadded(pre: string, t: string, post: string)
    requires AllSpaces(pre) && AllSpaces(post)
    requires t != [] ==> !IsSpace(t[0]) && !IsSpace(t[|t| - 1])
    ensures Strip(pre + t + post) == Strip(t)
  {
    TrimPadded(pre, t, post);
    TrimmedAlready(t);
  }

  lemma SignedValueUnderscore(a: string, b: string)
    requires a != [] && b != [] && AllDigits(a) && AllDigits(b)
    ensures SignedValue(a + "_" + b) == Some(DigitsValue(a + b))
  {
    var s := a + "_" + b;
    assert s[0] == a[0];
    DigitsAreGroups(b);
    GroupsJoin(a, b);
    DropUnderscoresAppend(a + "_", b);
    DropUnderscoresAppend(a, "_");
    DropNoUnderscores(a);
    DropNoUnderscores(b);
    assert DropUnderscores("_") == [];
    assert DropUnderscores(a + "_") == a;
    assert DropUnderscores(s) == a + b;
    assert !(s[0] == '-' || s[0] == '+');
  }

  lemma {:induction false} DigitsAreGroups(s: string)
    requires s != [] && AllDigits(s)
    ensures DigitGroups(s)
  {
    if |s| > 1 {
      DigitsAreGroups(s[1..]);
    }
  }

  /** Two digit groups joined by one underscore form digit groups. */
  lemma {:induction false} GroupsJoin(a: string, b: string)
    requires a != [] && AllDigits(a) && DigitGroups(b)
    ensures DigitGroups(a + "_" + b)
  {
    var s := a + "_" + b;
    if |a| == 1 {
      assert s[1] == '_' && s[2..] == b;
    } else {
      assert s[1] == a[1] && s[1..] == a[1..] + "_" + b;
      GroupsJoin(a[1..], b);
    }
  }

  /** A single underscore between two runs of digits is ignored: "1_000" reads as 1000. */
  lemma ParseIntUnderscore(a: string, b: string)
    requires a != [] && b != [] && AllDigits(a) && AllDigits(b)
    ensures ParseInt(a + "_" + b) == Ok(DigitsValue(a + b))
  {
    var s := a + "_" + b;
    assert s[0] == a[0] && s[|s| - 1] == b[|b| - 1];
    TrimmedAlready(s);
    SignedValueUnderscore(a, b);
  }

  /** Underscores only between digits: two in a row, or one at either end, are a ValueError. */
  lemma ParseIntBadUnderscores()
    ensures ParseInt("1__0").Err? && ParseInt("_1").Err? && ParseInt("1_").Err?
  {
    assert "1__0"[2..] == "_0" && !DigitGroups("_0");
    Unsigned("1__0");
    Unsigned("_1");
    assert "1_"[2..] == "" && !DigitGroups("");
    Unsigned("1_");
  }

  /** Text without surrounding whitespace or sign parses iff it is digit groups. */
  lemma Unsigned(t: string)
    requires t != [] && !IsSpace(t[0]) && !IsSpace(t[|t| - 1]) && t[0] != '-' && t[0] != '+'
    ensures ParseInt(t).Ok? <==> DigitGroups(t)
  {
    TrimmedAlready(t);
  }
}
