/**
 * The string operations that train.py relies on: Python's `str.strip()` and
 * `str.split()` (both over the characters for which `str.isspace()` holds),
 * `re.split(r"[ \t]+", ...)`, `" ".join(...)`, `str(int)` and the list
 * comprehension that maps a word transform over a word list.
 */
module Text {

  import opened Results

  /** The characters for which Python's `str.isspace()` is true. */
  predicate IsSpace(c: char)
  {
    || c == ' '
    || ('\t' <= c <= '\r')
    || ('\U{1c}' <= c <= '\U{1f}')
    || c == '\U{85}'
    || c == '\U{a0}'
    || c == '\U{1680}'
    || ('\U{2000}' <= c <= '\U{200a}')
    || c == '\U{2028}'
    || c == '\U{2029}'
    || c == '\U{202f}'
    || c == '\U{205f}'
    || c == '\U{3000}'
  }

  /** The separator class `[ \t]` of the dictionary reader's regular expression. */
  predicate IsSpaceTab(c: char)
  {
    c == ' ' || c == '\t'
  }

  predicate NoSpace(s: string)
  {
    forall k :: 0 <= k < |s| ==> !IsSpace(s[k])
  }

  predicate NoSpaceTab(s: string)
  {
    forall k :: 0 <= k < |s| ==> !IsSpaceTab(s[k])
  }

  /** A token as `str.split()` produces it: non-empty, no whitespace. */
  predicate IsToken(s: string)
  {
    s != [] && NoSpace(s)
  }

  predicate AllTokens(toks: seq<string>)
  {
    forall k :: 0 <= k < |toks| ==> IsToken(toks[k])
  }

  /** Neither end of `s` is whitespace (so `strip()` leaves it alone). */
  predicate TrimmedEnds(s: string)
  {
    s != [] ==> !IsSpace(s[0]) && !IsSpace(s[|s| - 1])
  }

  /** Every character of `s` is whitespace. */
  predicate AllSpace(s: string)
  {
    forall k :: 0 <= k < |s| ==> IsSpace(s[k])
  }

  function TrimLeft(s: string): (r: string)
    ensures |r| <= |s|
    ensures r != [] ==> !IsSpace(r[0])
    decreases |s|
  {
    if s != [] && IsSpace(s[0]) then TrimLeft(s[1..]) else s
  }

  function TrimRight(s: string): (r: string)
    ensures |r| <= |s| && r == s[..|r|]
    ensures r != [] ==> !IsSpace(r[|r| - 1])
    decreases |s|
  {
    if s != [] && IsSpace(s[|s| - 1]) then TrimRight(s[..|s| - 1]) else s
  }

  /** `TrimLeft` drops a whitespace prefix and keeps the rest. */
  lemma {:induction false} TrimLeftSlice(s: string)
    ensures TrimLeft(s) == s[|s| - |TrimLeft(s)|..]
    ensures AllSpace(s[..|s| - |TrimLeft(s)|])
    decreases |s|
  {
    if s != [] && IsSpace(s[0]) {
      var r := TrimLeft(s[1..]);
      TrimLeftSlice(s[1..]);
      assert s[1..][|s| - 1 - |r|..] == s[|s| - |r|..];
      assert s[..|s| - |r|] == [s[0]] + s[1..][..|s| - 1 - |r|];
    }
  }

  /** `TrimRight` drops a whitespace suffix. */
  lemma {:induction false} TrimRightSlice(s: string)
    ensures AllSpace(s[|TrimRight(s)|..])
    decreases |s|
  {
    if s != [] && IsSpace(s[|s| - 1]) {
      var r := TrimRight(s[..|s| - 1]);
      TrimRightSlice(s[..|s| - 1]);
      assert s[|r|..] == s[..|s| - 1][|r|..] + [s[|s| - 1]];
    }
  }

  /** Python's `s.strip()`. */
  function Strip(s: string): (r: string)
    ensures |r| <= |s|
    ensures TrimmedEnds(r)
    ensures TrimmedEnds(s) ==> r == s
  {
    var t := TrimLeft(s);
    assert TrimmedEnds(s) ==> t == s;
    TrimRight(t)
  }

  /** `s.strip()` is `s` without its leading and trailing whitespace: a slice with only whitespace around it. */
  lemma StripSlice(s: string)
    ensures exists i, j :: 0 <= i <= j <= |s| && Strip(s) == s[i..j] && AllSpace(s[..i]) && AllSpace(s[j..])
  {
    var t := TrimLeft(s);
    var r := TrimRight(t);
    TrimLeftSlice(s);
    TrimRightSlice(t);
    var i := |s| - |t|;
    var j := i + |r|;
    assert r == s[i..j] && s[j..] == t[|r|..];
  }

  /** A line that is empty after stripping. */
  predicate Blank(line: string)
  {
    Strip(line) == []
  }

  /** The number of lines that are not blank. */
  function NonBlankCount(lines: seq<string>): nat
  {
    if lines == [] then 0
    else NonBlankCount(lines[..|lines| - 1]) + (if Blank(lines[|lines| - 1]) then 0 else 1)
  }

  /** `s.strip()` of a string with clean ends and one appended space. */
  lemma StripTrailingSpace(s: string)
    requires TrimmedEnds(s)
    ensures Strip(s + " ") == s
  {
    var t := s + " ";
    if s == [] {
      assert TrimLeft(" ") == TrimLeft([]);
    } else {
      assert TrimLeft(t) == t;
      assert t[..|t| - 1] == s;
      assert TrimRight(t) == TrimRight(s);
    }
  }

  // ---------------------------------------------------------------------
  // re.split(r"[ \t]+", s)

  /** Index of the first space or tab of `s`, or `|s|` when there is none. */
  function SpaceTabIndex(s: string): (i: nat)
    ensures i <= |s|
    ensures forall k :: 0 <= k < i ==> !IsSpaceTab(s[k])
    ensures i < |s| ==> IsSpaceTab(s[i])
  {
    if s == [] || IsSpaceTab(s[0]) then 0 else 1 + SpaceTabIndex(s[1..])
  }

  /** End of the run of spaces and tabs that starts at `i`. */
  function RunEnd(s: string, i: nat): (j: nat)
    requires i <= |s|
    ensures i <= j <= |s|
    ensures forall k :: i <= k < j ==> IsSpaceTab(s[k])
    ensures j < |s| ==> !IsSpaceTab(s[j])
    decreases |s| - i
  {
    if i < |s| && IsSpaceTab(s[i]) then RunEnd(s, i + 1) else i
  }

  /** `re.split(r"[ \t]+", s)`: the pieces between maximal runs of spaces and tabs. */
  function SplitSpaceTab(s: string): (r: seq<string>)
    ensures |r| >= 1
    ensures forall k :: 0 <= k < |r| ==> NoSpaceTab(r[k])
    decreases |s|
  {
    var i := SpaceTabIndex(s);
    if i == |s| then [s] else [s[..i]] + SplitSpaceTab(s[RunEnd(s, i)..])
  }

  // ---------------------------------------------------------------------
  // str.split() with no argument

  /** Index of the first whitespace character of `s`, or `|s|`. */
  function SpaceIndex(s: string): (i: nat)
    ensures i <= |s|
    ensures forall k :: 0 <= k < i ==> !IsSpace(s[k])
    ensures i < |s| ==> IsSpace(s[i])
  {
    if s == [] || IsSpace(s[0]) then 0 else 1 + SpaceIndex(s[1..])
  }

  /** `s.split()`: the maximal runs of non-whitespace characters, in order. */
  function Fields(s: string): (r: seq<string>)
    ensures AllTokens(r)
    ensures s != [] && !IsSpace(s[0]) ==> r != [] && r[0] == s[..SpaceIndex(s)]
    decreases |s|
  {
    if s == [] then []
    else if IsSpace(s[0]) then Fields(s[1..])
    else
      var i := SpaceIndex(s);
      [s[..i]] + Fields(s[i..])
  }

  // ---------------------------------------------------------------------
  // " ".join(tokens)

  function Join(toks: seq<string>): string
  {
    if toks == [] then ""
    else if |toks| == 1 then toks[0]
    else toks[0] + " " + Join(toks[1..])
  }

  /** Joining tokens gives a string that begins with the first token and ends with the last. */
  lemma {:induction false} JoinEnds(toks: seq<string>)
    requires |toks| >= 1 && AllTokens(toks)
    ensures Join(toks) != []
    ensures Join(toks)[0] == toks[0][0]
    ensures Join(toks)[|Join(toks)| - 1] == toks[|toks| - 1][|toks[|toks| - 1]| - 1]
    ensures TrimmedEnds(Join(toks))
  {
    if |toks| > 1 {
      JoinEnds(toks[1..]);
    }
  }

  /** Joining tokens that hold no tab gives a string with no tab. */
  lemma {:induction false} JoinNoTab(toks: seq<string>)
    requires forall k :: 0 <= k < |toks| ==> NoSpaceTab(toks[k])
    ensures '\t' !in Join(toks)
  {
    if |toks| > 1 {
      JoinNoTab(toks[1..]);
      assert Join(toks) == toks[0] + " " + Join(toks[1..]);
    }
  }

  /** Splitting a token, one space and a rest that starts with neither gives the token and the pieces of the rest. */
  lemma SplitSpaceTabCons(t: string, j: string)
    requires t != [] && NoSpaceTab(t)
    requires j != [] && !IsSpaceTab(j[0])
    ensures SplitSpaceTab(t + " " + j) == [t] + SplitSpaceTab(j)
  {
    var s := t + " " + j;
    assert s[|t|] == ' ';
    assert forall k :: 0 <= k < |t| ==> s[k] == t[k];
    assert SpaceTabIndex(s) == |t|;
    assert s[|t| + 1] == j[0];
    assert RunEnd(s, |t| + 1) == |t| + 1;
    assert RunEnd(s, |t|) == |t| + 1;
    assert s[..|t|] == t;
    assert s[|t| + 1..] == j;
  }

  /** `re.split(r"[ \t]+", " ".join(toks)) == toks` for non-empty tokens free of spaces and tabs. */
  lemma {:induction false} SplitSpaceTabJoin(toks: seq<string>)
    requires |toks| >= 1
    requires forall k :: 0 <= k < |toks| ==> toks[k] != [] && NoSpaceTab(toks[k])
    ensures SplitSpaceTab(Join(toks)) == toks
  {
    if |toks| == 1 {
      var t := toks[0];
      assert Join(toks) == t;
      assert SpaceTabIndex(t) == |t|;
    } else {
      var t, rest := toks[0], toks[1..];
      SplitSpaceTabJoin(rest);
      JoinStartsWith(rest);
      assert Join(toks) == t + " " + Join(rest);
      SplitSpaceTabCons(t, Join(rest));
    }
  }

  /** The first character of a join of non-empty tokens is the first token's. */
  lemma JoinStartsWith(toks: seq<string>)
    requires |toks| >= 1 && toks[0] != []
    ensures Join(toks) != [] && Join(toks)[0] == toks[0][0]
  {
  }

  /** Splitting a token, a space and a rest gives the token and the fields of the rest. */
  lemma FieldsCons(t: string, j: string)
    requires IsToken(t)
    ensures Fields(t + " " + j) == [t] + Fields(j)
  {
    var s := t + " " + j;
    assert s[|t|] == ' ';
    assert forall k :: 0 <= k < |t| ==> s[k] == t[k];
    assert SpaceIndex(s) == |t|;
    assert s[..|t|] == t;
    assert s[|t|..] == " " + j;
    assert (" " + j)[1..] == j;
  }

  /** `" ".join(toks).split() == toks` for tokens as `split()` produces them. */
  lemma {:induction false} FieldsJoin(toks: seq<string>)
    requires AllTokens(toks)
    ensures Fields(Join(toks)) == toks
  {
    if toks == [] {
    } else if |toks| == 1 {
      var t := toks[0];
      assert SpaceIndex(t) == |t|;
      assert t[..|t|] == t;
      assert t[|t|..] == [];
    } else {
      var t, rest := toks[0], toks[1..];
      FieldsJoin(rest);
      assert Join(toks) == t + " " + Join(rest);
      FieldsCons(t, Join(rest));
    }
  }

  // ---------------------------------------------------------------------
  // str(n) for an int n, and its inverse

  function DigitChar(d: nat): (c: char)
    requires d < 10
    ensures '0' <= c <= '9' && (c as int) - ('0' as int) == d
  {
    (('0' as int) + d) as char
  }

  predicate IsDigits(s: string)
  {
    s != [] && forall k :: 0 <= k < |s| ==> '0' <= s[k] <= '9'
  }

  /** Decimal notation of a natural number, most significant digit first. */
  function NatToDecimal(n: nat): (r: string)
    ensures IsDigits(r)
    ensures |r| == 1 <==> n < 10
  {
    if n < 10 then [DigitChar(n)] else NatToDecimal(n / 10) + [DigitChar(n % 10)]
  }

  /** Python's `str(n)` for an int. */
  function IntToDecimal(n: int): string
  {
    if n < 0 then "-" + NatToDecimal(-n) else NatToDecimal(n)
  }

  /** The value of a string of decimal digits. */
  function DecimalValue(s: string): nat
    requires IsDigits(s)
  {
    var d := (s[|s| - 1] as int) - ('0' as int);
    if |s| == 1 then d else DecimalValue(s[..|s| - 1]) * 10 + d
  }

  /** Python's `int(s)` restricted to an optional minus sign followed by digits. */
  function ParseInt(s: string): (r: Option<int>)
  {
    if s != [] && s[0] == '-' then
      if IsDigits(s[1..]) then Some(0 - DecimalValue(s[1..]) as int) else None
    else if IsDigits(s) then Some(DecimalValue(s))
    else None
  }

  lemma {:induction false} DecimalRoundTrip(n: nat)
    ensures DecimalValue(NatToDecimal(n)) == n
  {
    if n >= 10 {
      DecimalRoundTrip(n / 10);
      var s := NatToDecimal(n);
      assert s[..|s| - 1] == NatToDecimal(n / 10);
    }
  }

  /** Reading back `str(n)` gives `n`. */
  lemma IntRoundTrip(n: int)
    ensures ParseInt(IntToDecimal(n)) == Some(n)
  {
    if n < 0 {
      var d := NatToDecimal(-n);
      DecimalRoundTrip(-n);
      assert IntToDecimal(n) == "-" + d;
      assert ("-" + d)[1..] == d;
    } else {
      var d := NatToDecimal(n);
      DecimalRoundTrip(n);
      assert IntToDecimal(n) == d;
      assert '0' <= d[0] <= '9';
    }
  }

  /** A non-empty sequence is its prefix followed by its last element. */
  lemma SplitLast<T>(s: seq<T>)
    requires |s| > 0
    ensures s[..|s| - 1] + [s[|s| - 1]] == s
  {
  }

  // ---------------------------------------------------------------------
  // Mapping a word transform over a word list, and enumerating a set

  /** `[f(x) for x in xs]`. */
  function Mapped<A, B>(xs: seq<A>, f: A -> B): (r: seq<B>)
    ensures |r| == |xs|
    ensures forall k :: 0 <= k < |xs| ==> r[k] == f(xs[k])
  {
    seq(|xs|, k requires 0 <= k < |xs| => f(xs[k]))
  }

  lemma MappedSnoc<A, B>(xs: seq<A>, x: A, f: A -> B)
    ensures Mapped(xs + [x], f) == Mapped(xs, f) + [f(x)]
  {
    assert (xs + [x])[..|xs|] == xs;
  }

  /** The first `j + 1` mapped elements are the first `j` and the image of element `j`. */
  lemma MappedPrefix<A, B>(xs: seq<A>, j: nat, f: A -> B)
    requires j < |xs|
    ensures Mapped(xs, f)[..j + 1] == Mapped(xs, f)[..j] + [f(xs[j])]
  {
    var all := Mapped(xs, f);
    var y := all[j];
    assert y == f(xs[j]);
    var a, b := all[..j + 1], all[..j] + [y];
    assert |a| == |b|;
    forall k | 0 <= k < |a|
      ensures a[k] == b[k]
    {
    }
  }

  lemma {:induction false} MappedAppend<A, B>(xs: seq<A>, ys: seq<A>, f: A -> B)
    ensures Mapped(xs + ys, f) == Mapped(xs, f) + Mapped(ys, f)
  {
    if ys != [] {
      var n := |ys| - 1;
      MappedAppend(xs, ys[..n], f);
      assert (xs + ys)[..|xs + ys| - 1] == xs + ys[..n];
    }
  }

  /** `xs` lists every element of `s` exactly once (one iteration order of the set). */
  predicate Enumerates(xs: seq<string>, s: set<string>)
  {
    && (forall i, j :: 0 <= i < j < |xs| ==> xs[i] != xs[j])
    && (forall x :: x in xs ==> x in s)
    && (forall x :: x in s ==> x in xs)
  }

  /** Listing one more element, not yet listed, lists the set grown by it. */
  lemma EnumeratesSnoc(xs: seq<string>, s: set<string>, x: string)
    requires Enumerates(xs, s) && x !in s
    ensures Enumerates(xs + [x], s + {x})
  {
    var ys := xs + [x];
    forall i, j | 0 <= i < j < |ys|
      ensures ys[i] != ys[j]
    {
      if j == |xs| {
        assert xs[i] in xs;
      }
    }
  }

}
