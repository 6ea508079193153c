/**
 * The few Python string and integer built-ins the converter relies on:
 * `str.split(',')`, the empty-token filter, `int(token)` and `str(node_id)`.
 * Strings are sequences of characters; only ASCII digits and ASCII white space are modelled.
 */
module PyText {
  import opened Wrappers

  // ---------------------------------------------------------------------------
  // str.split(sep) and its inverse, sep.join(parts)
  // ---------------------------------------------------------------------------

  /** `s.split(sep)`: always at least one piece, and no piece holds the separator. */
  function Split(s: string, sep: char): (r: seq<string>)
    ensures |r| >= 1
    ensures forall k :: 0 <= k < |r| ==> sep !in r[k]
  {
    if |s| == 0 then [""]
    else
      var rest := Split(s[1..], sep);
      if s[0] == sep then [""] + rest
      else [[s[0]] + rest[0]] + rest[1..]
  }

  /** `sep.join(parts)` */
  function Join(parts: seq<string>, sep: char): string
  {
    if |parts| == 0 then ""
    else if |parts| == 1 then parts[0]
    else parts[0] + [sep] + Join(parts[1..], sep)
  }

  /** Joining the pieces of a split gives back the original string. */
  lemma {:induction false} JoinSplit(s: string, sep: char)
    ensures Join(Split(s, sep), sep) == s
  {
    if |s| > 0 {
      var rest := Split(s[1..], sep);
      JoinSplit(s[1..], sep);
      if s[0] == sep {
        assert Split(s, sep) == [""] + rest;
        assert ([""] + rest)[1..] == rest;
      } else {
        var r := Split(s, sep);
        assert r == [[s[0]] + rest[0]] + rest[1..];
        if |rest| == 1 {
          assert r == [[s[0]] + rest[0]];
        } else {
          assert r[1..] == rest[1..];
          assert Join(rest, sep) == rest[0] + [sep] + Join(rest[1..], sep);
        }
      }
    }
  }

  /** Splitting a join of separator-free pieces gives back the pieces. */
  lemma {:induction false} SplitJoin(parts: seq<string>, sep: char)
    requires |parts| >= 1
    requires forall k :: 0 <= k < |parts| ==> sep !in parts[k]
    ensures Split(Join(parts, sep), sep) == parts
  {
    if |parts| == 1 {
      SplitNoSep(parts[0], sep);
    } else {
      SplitJoin(parts[1..], sep);
      SplitPrefix(parts[0], sep, Join(parts[1..], sep));
      assert [parts[0]] + parts[1..] == parts;
    }
  }

  /** A string without the separator splits into itself. */
  lemma {:induction false} SplitNoSep(s: string, sep: char)
    requires sep !in s
    ensures Split(s, sep) == [s]
  {
    if |s| > 0 {
      SplitNoSep(s[1..], sep);
      assert [s[0]] + s[1..] == s;
    }
  }

  /** A separator-free prefix followed by the separator becomes the first piece. */
  lemma {:induction false} SplitPrefix(w: string, sep: char, rest: string)
    requires sep !in w
    ensures Split(w + [sep] + rest, sep) == [w] + Split(rest, sep)
  {
    if |w| == 0 {
      assert w + [sep] + rest == [sep] + rest;
      assert ([sep] + rest)[1..] == rest;
    } else {
      var s := w + [sep] + rest;
      assert s[1..] == w[1..] + [sep] + rest;
      SplitPrefix(w[1..], sep, rest);
      assert [w[0]] + w[1..] == w;
    }
  }

  // ---------------------------------------------------------------------------
  // filter(lambda x: len(x) > 0, tokens)
  // ---------------------------------------------------------------------------

  /** The non-empty tokens, in their original order. */
  function NonEmpty(tokens: seq<string>): (r: seq<string>)
    ensures forall t :: t in r <==> t in tokens && |t| > 0
    ensures |r| <= |tokens|
  {
    if |tokens| == 0 then []
    else (if |tokens[0]| > 0 then [tokens[0]] else []) + NonEmpty(tokens[1..])
  }

  /** Filtering a concatenation filters each part in turn: the kept tokens stay in their order. */
  lemma {:induction false} NonEmptyAppend(a: seq<string>, b: seq<string>)
    ensures NonEmpty(a + b) == NonEmpty(a) + NonEmpty(b)
    decreases |a|
  {
    if |a| == 0 {
      assert a + b == b;
    } else {
      var head := if |a[0]| > 0 then [a[0]] else [];
      assert (a + b)[0] == a[0];
      assert (a + b)[1..] == a[1..] + b;
      NonEmptyAppend(a[1..], b);
      assert head + (NonEmpty(a[1..]) + NonEmpty(b)) == (head + NonEmpty(a[1..])) + NonEmpty(b);
    }
  }

  /** A single token is kept exactly when it is not empty. */
  lemma NonEmptyOne(t: string)
    ensures NonEmpty([t]) == if |t| > 0 then [t] else []
  {
    assert [t][1..] == [];
  }

  /** The dependency tokens of a `task_depends` cell: split on commas, empty tokens dropped. */
  function DependencyTokens(depends: string): (r: seq<string>)
  {
    NonEmpty(Split(depends, ','))
  }

  /** No dependency token is empty or holds a comma, and each is text between two commas. */
  lemma DependencyTokensShape(depends: string)
    ensures forall t :: t in DependencyTokens(depends) ==> |t| > 0 && ',' !in t
    ensures forall t :: t in DependencyTokens(depends) ==> t in Split(depends, ',')
  {
  }

  /** There are no dependency tokens exactly when the cell holds nothing but commas. */
  lemma DependencyTokensEmpty(depends: string)
    ensures (forall k :: 0 <= k < |depends| ==> depends[k] == ',') <==> DependencyTokens(depends) == []
  {
    var pieces := Split(depends, ',');
    var tokens := DependencyTokens(depends);
    JoinSplit(depends, ',');
    if forall k :: 0 <= k < |depends| ==> depends[k] == ',' {
      forall t | t in pieces ensures t == [] {
        var j :| 0 <= j < |pieces| && pieces[j] == t;
        assert ',' !in pieces[j];
        JoinedPieceInside(pieces, ',', t);
        NoMemberEmpty(t);
      }
      NoMemberEmpty(tokens);
    } else {
      var k :| 0 <= k < |depends| && depends[k] != ',';
      var t := JoinedCharInPiece(pieces, ',', k);
      assert t in tokens;
    }
  }

  /** A sequence with no element is empty. */
  lemma NoMemberEmpty<T>(s: seq<T>)
    ensures (forall x :: x !in s) ==> s == []
  {
    if s != [] {
      assert s[0] in s;
    }
  }

  /** Every character of a piece occurs in the join. */
  lemma {:induction false} JoinedPieceInside(parts: seq<string>, sep: char, t: string)
    requires t in parts
    ensures forall c :: c in t ==> c in Join(parts, sep)
  {
    if |parts| > 1 && t != parts[0] {
      assert t in parts[1..];
      JoinedPieceInside(parts[1..], sep, t);
    }
  }

  /** A non-separator character of a join comes from some piece. */
  lemma {:induction false} JoinedCharInPiece(parts: seq<string>, sep: char, k: int) returns (t: string)
    requires 0 <= k < |Join(parts, sep)| && Join(parts, sep)[k] != sep
    ensures t in parts && |t| > 0
  {
    if |parts| == 1 {
      t := parts[0];
    } else {
      var j := Join(parts, sep);
      if k < |parts[0]| {
        t := parts[0];
      } else {
        assert j[k] == Join(parts[1..], sep)[k - |parts[0]| - 1];
        t := JoinedCharInPiece(parts[1..], sep, k - |parts[0]| - 1);
      }
    }
  }

  // ---------------------------------------------------------------------------
  // int(token) for base 10
  // ---------------------------------------------------------------------------

  /**
   * The white space `int()` skips around an ASCII numeral: tab to carriage return, and space.
   * The separators 0x1C-0x1F, white space to `str.isspace`, are not skipped.
   */
  predicate IsSpace(c: char)
  {
    c == ' ' || c == '\t' || c == '\n' || c == '\U{B}' || c == '\U{C}' || c == '\r'
  }

  predicate IsDigit(c: char)
  {
    '0' <= c <= '9'
  }

  /** `s.lstrip()`: drops the leading white space and nothing else. */
  function StripLeft(s: string): (r: string)
    ensures |r| <= |s| && r == s[|s| - |r|..]
    ensures r == [] || !IsSpace(r[0])
    ensures forall k :: 0 <= k < |s| - |r| ==> IsSpace(s[k])
  {
    if |s| > 0 && IsSpace(s[0]) then
      var r := StripLeft(s[1..]);
      assert s[1..][|s| - 1 - |r|..] == s[|s| - |r|..];
      assert forall k :: 1 <= k < |s| - |r| ==> s[k] == s[1..][k - 1];
      r
    else s
  }

  /** `s.rstrip()`: drops the trailing white space and nothing else. */
  function StripRight(s: string): (r: string)
    ensures |r| <= |s| && r == s[..|r|]
    ensures r == [] || !IsSpace(r[|r| - 1])
    ensures forall k :: |r| <= k < |s| ==> IsSpace(s[k])
  {
    if |s| > 0 && IsSpace(s[|s| - 1]) then
      var r := StripRight(s[..|s| - 1]);
      assert s[..|s| - 1][..|r|] == s[..|r|];
      assert forall k :: |r| <= k < |s| - 1 ==> s[k] == s[..|s| - 1][k];
      r
    else s
  }

  /** Digits with single underscores between them, as `int()` accepts them. */
  predicate ValidDigits(b: string)
  {
    && |b| > 0
    && IsDigit(b[0])
    && IsDigit(b[|b| - 1])
    && (forall k :: 0 <= k < |b| ==> IsDigit(b[k]) || b[k] == '_')
    && (forall i, j :: 0 <= i < |b| && 0 <= j < |b| && j == i + 1 && b[i] == '_' ==> IsDigit(b[j]))
  }

  /** The value of a digit string, underscores ignored. */
  function DigitsValue(b: string): nat
  {
    if |b| == 0 then 0
    else if b[|b| - 1] == '_' then DigitsValue(b[..|b| - 1])
    else if IsDigit(b[|b| - 1]) then 10 * DigitsValue(b[..|b| - 1]) + (b[|b| - 1] - '0') as int
    else DigitsValue(b[..|b| - 1])
  }

  /**
   * `int(token)`: surrounding white space stripped, an optional sign, then base-10 digits
   * with single underscores between them; anything else raises, modelled as None.
   */
  function ParseInt(token: string): (r: Option<int>)
    ensures r.Some? ==> exists k :: 0 <= k < |token| && IsDigit(token[k])
    ensures r.Some? ==> forall k :: 0 <= k < |token| ==> NumeralChar(token[k])
  {
    var l := StripLeft(token);
    var s := StripRight(l);
    var r := ParseStripped(s);
    if r.Some? then StrippedNumeral(token, l, s); r else r
  }

  /** `int()` once the white space around the token is gone. */
  function ParseStripped(s: string): (r: Option<int>)
    ensures r.Some? ==> |s| > 0 && ValidDigits(if s[0] == '-' || s[0] == '+' then s[1..] else s)
  {
    if |s| == 0 then None
    else
      var negative := s[0] == '-';
      var body := if s[0] == '-' || s[0] == '+' then s[1..] else s;
      if !ValidDigits(body) then None
      else if negative then Some(0 - DigitsValue(body) as int)
      else Some(DigitsValue(body))
  }

  /** The characters a token `int()` accepts may hold. */
  predicate NumeralChar(c: char)
  {
    IsSpace(c) || IsDigit(c) || c == '+' || c == '-' || c == '_'
  }

  /**
   * A token whose stripped form is digits with at most a sign in front holds a digit, and
   * nothing but white space, the sign, digits and underscores.
   */
  lemma NumeralToken(token: string, a: int, s: string)
    requires 0 <= a && a + |s| <= |token| && s == token[a..a + |s|] && |s| > 0
    requires forall k :: 0 <= k < a ==> IsSpace(token[k])
    requires forall k :: a + |s| <= k < |token| ==> IsSpace(token[k])
    requires ParseStripped(s).Some?
    ensures exists k :: 0 <= k < |token| && IsDigit(token[k])
    ensures forall k :: 0 <= k < |token| ==> NumeralChar(token[k])
  {
    var body := if s[0] == '-' || s[0] == '+' then s[1..] else s;
    assert ValidDigits(body);
    var off := |s| - |body|;
    assert token[a + off] == s[off] == body[0];
    forall k | 0 <= k < |token|
      ensures NumeralChar(token[k])
    {
      if a <= k < a + |s| {
        var i := k - a;
        assert token[k] == s[i];
        if i >= off {
          assert s[i] == body[i - off];
        } else {
          assert s[0] == '-' || s[0] == '+';
        }
      }
    }
  }

  /** A token whose stripped form `int()` accepts is made of numeral characters and holds a digit. */
  lemma StrippedNumeral(token: string, l: string, s: string)
    requires |l| <= |token| && l == token[|token| - |l|..]
    requires forall k :: 0 <= k < |token| - |l| ==> IsSpace(token[k])
    requires |s| <= |l| && s == l[..|s|]
    requires forall k :: |s| <= k < |l| ==> IsSpace(l[k])
    requires ParseStripped(s).Some?
    ensures exists k :: 0 <= k < |token| && IsDigit(token[k])
    ensures forall k :: 0 <= k < |token| ==> NumeralChar(token[k])
  {
    SliceOfSlice(token, l, s);
    NumeralToken(token, |token| - |l|, s);
  }

  /** `token.strip()` is a slice of the token with only white space after it (and, by StripLeft, before it). */
  lemma SliceOfSlice(token: string, l: string, s: string)
    requires |l| <= |token| && l == token[|token| - |l|..]
    requires forall k :: 0 <= k < |token| - |l| ==> IsSpace(token[k])
    requires |s| <= |l| && s == l[..|s|]
    requires forall k :: |s| <= k < |l| ==> IsSpace(l[k])
    ensures var a := |token| - |l|;
      && a + |s| <= |token| && s == token[a..a + |s|]
      && (forall k :: a + |s| <= k < |token| ==> IsSpace(token[k]))
  {
    var a := |token| - |l|;
    assert token[a..][..|s|] == token[a..a + |s|];
    forall k | a + |s| <= k < |token|
      ensures IsSpace(token[k])
    {
      assert token[k] == l[k - a];
    }
  }


  // ---------------------------------------------------------------------------
  // str(n) for an int
  // ---------------------------------------------------------------------------

  function DigitChar(d: nat): char
    requires d < 10
  {
    ('0' as int + d) as char
  }

  /** The decimal digits of n, without leading zeros. */
  function NatToString(n: nat): (r: string)
    ensures |r| >= 1 && forall k :: 0 <= k < |r| ==> IsDigit(r[k])
  {
    if n < 10 then [DigitChar(n)] else NatToString(n / 10) + [DigitChar(n % 10)]
  }

  /** `str(n)` */
  function IntToString(n: int): string
  {
    if n < 0 then "-" + NatToString(-n) else NatToString(n)
  }

  lemma {:induction false} DigitsValueOfNat(n: nat)
    ensures DigitsValue(NatToString(n)) == n
  {
    if n >= 10 {
      var s := NatToString(n);
      assert s[..|s| - 1] == NatToString(n / 10);
      DigitsValueOfNat(n / 10);
    }
  }

  /** The first and last characters `str()` writes for an int are not white space. */
  lemma NotSpace(c: char)
    requires IsDigit(c) || c == '-' || c == '+'
    ensures !IsSpace(c)
  {
  }

  /** Leading white space in front of text that does not start with white space is exactly what `lstrip` drops. */
  lemma StripLeftOf(ws: string, rest: string)
    requires forall k :: 0 <= k < |ws| ==> IsSpace(ws[k])
    requires rest == [] || !IsSpace(rest[0])
    ensures StripLeft(ws + rest) == rest
  {
    var s := ws + rest;
    var r := StripLeft(s);
    if |r| < |rest| {
      assert s[|ws|] == rest[0];
    }
    assert r == s[|ws|..];
    assert s[|ws|..] == rest;
  }

  /** Trailing white space after text that does not end with white space is exactly what `rstrip` drops. */
  lemma StripRightOf(rest: string, ws: string)
    requires forall k :: 0 <= k < |ws| ==> IsSpace(ws[k])
    requires rest == [] || !IsSpace(rest[|rest| - 1])
    ensures StripRight(rest + ws) == rest
  {
    var s := rest + ws;
    var r := StripRight(s);
    assert r == s[..|rest|];
    assert s[..|rest|] == rest;
  }

  /**
   * `int()` accepts every well-formed numeral: white space, an optional sign, digits with single
   * underscores between them, white space; the value is that of the digits, negated after "-".
   */
  lemma ParseIntAccepts(ws1: string, sign: string, b: string, ws2: string)
    requires forall k :: 0 <= k < |ws1| ==> IsSpace(ws1[k])
    requires forall k :: 0 <= k < |ws2| ==> IsSpace(ws2[k])
    requires sign == "" || sign == "+" || sign == "-"
    requires ValidDigits(b)
    ensures ParseInt(ws1 + sign + b + ws2) == Some(if sign == "-" then 0 - DigitsValue(b) as int else DigitsValue(b))
  {
    var s := sign + b;
    Regroup(ws1, sign, b, ws2);
    StripAround(ws1, s, ws2);
    ParseSigned(sign, b);
  }

  lemma Regroup(ws1: string, sign: string, b: string, ws2: string)
    ensures ws1 + sign + b + ws2 == ws1 + (sign + b + ws2)
  {
  }

  /** A numeral framed by white space strips to the numeral. */
  lemma StripAround(ws1: string, s: string, ws2: string)
    requires forall k :: 0 <= k < |ws1| ==> IsSpace(ws1[k])
    requires forall k :: 0 <= k < |ws2| ==> IsSpace(ws2[k])
    requires |s| > 0 && (IsDigit(s[0]) || s[0] == '-' || s[0] == '+') && IsDigit(s[|s| - 1])
    ensures StripRight(StripLeft(ws1 + (s + ws2))) == s
  {
    NotSpace(s[0]);
    NotSpace(s[|s| - 1]);
    assert (s + ws2)[0] == s[0];
    StripLeftOf(ws1, s + ws2);
    StripRightOf(s, ws2);
  }

  /** The stripped numeral's value: the digits' value, negated after "-". */
  lemma ParseSigned(sign: string, b: string)
    requires sign == "" || sign == "+" || sign == "-"
    requires ValidDigits(b)
    ensures ParseStripped(sign + b) == Some(if sign == "-" then 0 - DigitsValue(b) as int else DigitsValue(b))
  {
    var s := sign + b;
    if sign == "" {
      assert s == b;
      assert !(s[0] == '-' || s[0] == '+');
    } else {
      assert s[0] == sign[0];
      assert s[1..] == b;
    }
  }

  /** `int(str(n)) == n`: the text written for a node id reads back as that id. */
  lemma ParseIntToString(n: int)
    ensures ParseInt(IntToString(n)) == Some(n)
  {
    var s := IntToString(n);
    var m: nat := if n < 0 then -n else n;
    var digits := NatToString(m);
    assert IsDigit(s[|s| - 1]);
    NotSpace(s[0]);
    NotSpace(s[|s| - 1]);
    assert StripLeft(s) == s;
    assert StripRight(s) == s;
    DigitsValueOfNat(m);
    if n < 0 {
      assert s[1..] == digits;
    }
  }

  /** Distinct node ids are written as distinct strings. */
  lemma IntToStringInjective(a: int, b: int)
    requires IntToString(a) == IntToString(b)
    ensures a == b
  {
    ParseIntToString(a);
    ParseIntToString(b);
  }
}
