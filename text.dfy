/** Text primitives the installer relies on, with the meaning of the Python
    string methods it calls: str.strip(), str.split(sep), str.split(sep, 1)[0],
    sep.join(...), file readline() and str(int). */
module Text {

  datatype Option<T> = None | Some(value: T)

  /** Characters for which Python's str.isspace() holds (ASCII controls,
      the information separators, and the Unicode space characters). */
  predicate IsSpace(c: char)
  {
    || c == ' ' || c == '\t' || c == '\n' || c == '\r'
    || c == '\U{B}' || c == '\U{C}'
    || ('\U{1C}' <= c <= '\U{1F}')
    || c == '\U{85}' || c == '\U{A0}' || c == '\U{1680}'
    || ('\U{2000}' <= c <= '\U{200A}')
    || c == '\U{2028}' || c == '\U{2029}' || c == '\U{202F}'
    || c == '\U{205F}' || c == '\U{3000}'
  }

  predicate AllSpace(s: string)
  {
    forall i :: 0 <= i < |s| ==> IsSpace(s[i])
  }

  /** s without its leading whitespace (str.lstrip()). */
  function StripLeft(s: string): (r: string)
    ensures |r| <= |s|
  {
    if s != [] && IsSpace(s[0]) then StripLeft(s[1..]) else s
  }

  /** s without its trailing whitespace (str.rstrip()). */
  function StripRight(s: string): (r: string)
    ensures |r| <= |s|
  {
    if s != [] && IsSpace(s[|s| - 1]) then StripRight(s[..|s| - 1]) else s
  }

  /** str.strip(). */
  function Strip(s: string): string
  {
    StripRight(StripLeft(s))
  }

  /** StripLeft removes a whitespace-only prefix and stops at the first
      non-space character. */
  lemma {:induction false} StripLeftShape(s: string)
    ensures StripLeft(s) == s[|s| - |StripLeft(s)|..]
    ensures AllSpace(s[..|s| - |StripLeft(s)|])
    ensures StripLeft(s) == [] || !IsSpace(StripLeft(s)[0])
  {
    if s != [] && IsSpace(s[0]) {
      StripLeftShape(s[1..]);
      var n := |s| - |StripLeft(s)|;
      assert s[..n] == [s[0]] + s[1..][..n - 1];
    }
  }

  /** StripRight removes a whitespace-only suffix and stops at the last
      non-space character. */
  lemma {:induction false} StripRightShape(s: string)
    ensures StripRight(s) == s[..|StripRight(s)|]
    ensures AllSpace(s[|StripRight(s)|..])
    ensures StripRight(s) == [] || !IsSpace(StripRight(s)[|StripRight(s)| - 1])
  {
    if s != [] && IsSpace(s[|s| - 1]) {
      var s' := s[..|s| - 1];
      StripRightShape(s');
      var n := |StripRight(s)|;
      assert s[n..] == s'[n..] + [s[|s| - 1]];
    }
  }

  /** str.strip() returns the slice of s between a whitespace-only prefix
      and a whitespace-only suffix; the slice is empty exactly when s is all
      whitespace, and otherwise starts and ends with a non-space character. */
  lemma StripShape(s: string)
    ensures var r, k := Strip(s), |s| - |StripLeft(s)|;
      && k + |r| <= |s|
      && r == s[k..k + |r|]
      && AllSpace(s[..k]) && AllSpace(s[k + |r|..])
      && (r == [] <==> AllSpace(s))
      && (r != [] ==> !IsSpace(r[0]) && !IsSpace(r[|r| - 1]))
  {
    var front := StripLeft(s);
    var r := Strip(s);
    var k := |s| - |front|;
    StripLeftShape(s);
    StripRightShape(front);
    assert r == front[..|r|];
    assert s[k + |r|..] == front[|r|..];
    if r == [] {
      assert s == s[..k] + front;
    } else {
      assert r[0] == front[0];
    }
  }

  /** str.split(sep) with an explicit separator: every separator splits,
      adjacent separators give empty fields, and "" gives [""]. */
  function Split(s: string, sep: char): (r: seq<string>)
    ensures r != []
  {
    if s == [] then [[]]
    else
      var rest := Split(s[1..], sep);
      if s[0] == sep then [[]] + rest
      else
        [[s[0]] + rest[0]] + rest[1..]
  }

  /** There is one more field than there are separators. */
  lemma {:induction false} SplitCount(s: string, sep: char)
    ensures |Split(s, sep)| == multiset(s)[sep] + 1
  {
    if s != [] {
      SplitCount(s[1..], sep);
      assert s == [s[0]] + s[1..];
    }
  }

  /** No field holds the separator. */
  lemma {:induction false} SplitFields(s: string, sep: char)
    ensures forall i :: 0 <= i < |Split(s, sep)| ==> sep !in Split(s, sep)[i]
  {
    if s != [] {
      SplitFields(s[1..], sep);
    }
  }

  /** sep.join(ts). */
  function Join(ts: seq<string>, sep: char): string
  {
    if ts == [] then []
    else if |ts| == 1 then ts[0]
    else ts[0] + [sep] + Join(ts[1..], sep)
  }

  /** Joining the fields of a split with the same separator gives back the
      original string. */
  lemma {:induction false} JoinSplit(s: string, sep: char)
    ensures Join(Split(s, sep), sep) == s
  {
    if s != [] {
      JoinSplit(s[1..], sep);
      var rest := Split(s[1..], sep);
      if s[0] == sep {
        assert Split(s, sep) == [[]] + rest;
        assert Join(Split(s, sep), sep) == [] + [sep] + Join(rest, sep);
      } else {
        var r := Split(s, sep);
        assert r[0] == [s[0]] + rest[0] && r[1..] == rest[1..];
        if |rest| == 1 {
          assert Join(r, sep) == [s[0]] + rest[0];
        } else {
          assert Join(rest, sep) == rest[0] + [sep] + Join(rest[1..], sep);
          assert Join(r, sep) == ([s[0]] + rest[0]) + [sep] + Join(rest[1..], sep);
        }
      }
    }
  }

  /** Splitting a join of separator-free fields gives back the fields. */
  lemma {:induction false} SplitJoin(ts: seq<string>, sep: char)
    requires ts != []
    requires forall i :: 0 <= i < |ts| ==> sep !in ts[i]
    ensures Split(Join(ts, sep), sep) == ts
  {
    if |ts| == 1 {
      SplitNoSep(ts[0], sep);
    } else {
      var rest := ts[1..];
      var t := [sep] + Join(rest, sep);
      assert Split(t, sep) == [[]] + rest by {
        SplitJoin(rest, sep);
        SplitSepFirst(Join(rest, sep), sep);
      }
      assert Join(ts, sep) == ts[0] + t;
      calc {
        Split(ts[0] + t, sep);
        { SplitPrefix(ts[0], t, sep); }
        [ts[0] + Split(t, sep)[0]] + Split(t, sep)[1..];
        { assert ts[0] + [] == ts[0]; }
        [ts[0]] + rest;
        ts;
      }
    }
  }

  lemma SplitSepFirst(s: string, sep: char)
    ensures Split([sep] + s, sep) == [[]] + Split(s, sep)
  {
  }

  /** A string without the separator splits into itself alone. */
  lemma {:induction false} SplitNoSep(s: string, sep: char)
    requires sep !in s
    ensures Split(s, sep) == [s]
  {
    if s != [] {
      SplitNoSep(s[1..], sep);
      assert [s[0]] + s[1..] == s;
    }
  }

  /** A separator-free prefix w is glued onto the first field of what follows it. */
  lemma {:induction false} SplitPrefix(w: string, s: string, sep: char)
    requires sep !in w
    ensures Split(w + s, sep) == [w + Split(s, sep)[0]] + Split(s, sep)[1..]
  {
    if w != [] {
      SplitPrefix(w[1..], s, sep);
      assert (w + s)[1..] == w[1..] + s;
      assert [w[0]] + (w[1..] + Split(s, sep)[0]) == w + Split(s, sep)[0];
    } else {
      var r := Split(s, sep);
      assert w + s == s && w + r[0] == r[0];
      assert r == [r[0]] + r[1..];
    }
  }

  /** A separator-free word followed by the separator becomes a field of its own. */
  lemma SplitWord(w: string, s: string, sep: char)
    requires sep !in w
    ensures Split(w + ([sep] + s), sep) == [w] + Split(s, sep)
  {
    SplitPrefix(w, [sep] + s, sep);
    SplitSepFirst(s, sep);
    assert w + [] == w;
  }

  /** s.split(c, 1)[0]: the part of s before the first c, or all of s. */
  function Before(s: string, c: char): (r: string)
    ensures |r| <= |s| && r == s[..|r|]
    ensures c !in r
    ensures |r| < |s| ==> s[|r|] == c
  {
    if s == [] || s[0] == c then [] else [s[0]] + Before(s[1..], c)
  }

  /** The part before the first c is fixed by where that c is: s.split(c, 1)[0]
      is s[..k] exactly when s[k] is the first c of s, or when k = |s| and s
      holds no c. */
  lemma BeforeAt(s: string, c: char, k: nat)
    requires k <= |s| && c !in s[..k] && (k < |s| ==> s[k] == c)
    ensures Before(s, c) == s[..k]
  {
  }

  /** readline() on the unread text s: everything up to and including the
      first newline, or the rest of the text when none is left; "" only at
      end of file. */
  function ReadLine(s: string): (r: string)
    ensures |r| <= |s| && r == s[..|r|]
    ensures r == [] <==> s == []
  {
    var b := Before(s, '\n');
    if |b| < |s| then b + ['\n'] else b
  }

  /** A line read holds a newline only as its last character, and ends with
      one unless it runs to the end of the text. */
  lemma ReadLineShape(s: string)
    ensures var r := ReadLine(s);
      && (forall i :: 0 <= i < |r| - 1 ==> r[i] != '\n')
      && (0 < |r| < |s| ==> r[|r| - 1] == '\n')
  {
  }

  /** The successive results of readline() until end of file. */
  function FileLines(s: string): (r: seq<string>)
    decreases |s|
  {
    if s == [] then []
    else
      var l := ReadLine(s);
      [l] + FileLines(s[|l|..])
  }

  function Concat(ls: seq<string>): string
  {
    if ls == [] then [] else ls[0] + Concat(ls[1..])
  }

  /** Reading a file line by line loses nothing: the lines concatenate back
      to the whole text. */
  lemma {:induction false} FileLinesConcat(s: string)
    ensures Concat(FileLines(s)) == s
    decreases |s|
  {
    if s != [] {
      var l := ReadLine(s);
      var rest := s[|l|..];
      var ls := FileLines(s);
      assert ls == [l] + FileLines(rest);
      assert ls[0] == l && ls[1..] == FileLines(rest);
      FileLinesConcat(rest);
      calc {
        Concat(ls);
        l + Concat(FileLines(rest));
        l + rest;
        { assert l == s[..|l|]; }
        s;
      }
    }
  }

  /** Text-mode reading translates "\r\n" and a lone "\r" into "\n". */
  function UniversalNewlines(s: string): (r: string)
    ensures '\r' !in r
    ensures |r| <= |s|
    ensures '\r' !in s ==> r == s
  {
    if s == [] then []
    else if s[0] == '\r' then
      "\n" + UniversalNewlines(if |s| > 1 && s[1] == '\n' then s[2..] else s[1..])
    else
      assert s == [s[0]] + s[1..];
      [s[0]] + UniversalNewlines(s[1..])
  }

  /** A character other than a carriage return is copied as it is. */
  lemma UniversalNewlinesStep(a: string, b: string)
    requires a != [] && a[0] != '\r'
    ensures UniversalNewlines(a + b) == [a[0]] + UniversalNewlines(a[1..] + b)
  {
    assert (a + b)[0] == a[0];
    assert (a + b)[1..] == a[1..] + b;
  }

  /** Text without a carriage return passes through unchanged, and what
      follows it is translated on its own. */
  lemma {:induction false} UniversalNewlinesPlain(a: string, b: string)
    requires '\r' !in a
    ensures UniversalNewlines(a + b) == a + UniversalNewlines(b)
  {
    if a == [] {
      assert a + b == b;
    } else {
      assert a[0] in a;
      assert '\r' !in a[1..] by {
        assert forall x :: x in a[1..] ==> x in a;
      }
      UniversalNewlinesStep(a, b);
      UniversalNewlinesPlain(a[1..], b);
      assert [a[0]] + (a[1..] + UniversalNewlines(b)) == a + UniversalNewlines(b) by {
        assert [a[0]] + a[1..] == a;
      }
    }
  }

  /** A "\r\n" pair becomes a single "\n". */
  lemma UniversalNewlinesCrLf(a: string, b: string)
    requires '\r' !in a
    ensures UniversalNewlines(a + "\r\n" + b) == a + "\n" + UniversalNewlines(b)
  {
    var t := "\r\n" + b;
    assert t[2..] == b;
    assert a + "\r\n" + b == a + t;
    UniversalNewlinesPlain(a, t);
  }

  /** A carriage return not followed by a newline also becomes "\n". */
  lemma UniversalNewlinesCr(a: string, b: string)
    requires '\r' !in a
    requires b == [] || b[0] != '\n'
    ensures UniversalNewlines(a + "\r" + b) == a + "\n" + UniversalNewlines(b)
  {
    var t := "\r" + b;
    assert t[1..] == b;
    assert a + "\r" + b == a + t;
    UniversalNewlinesPlain(a, t);
  }

  function DigitChar(d: nat): char
    requires d < 10
  {
    "0123456789"[d]
  }

  function DigitValue(c: char): nat
  {
    if '0' <= c <= '9' then (c as int - '0' as int) as nat else 0
  }

  /** Decimal form of a natural number, as str() writes it. */
  function NatToString(n: nat): (r: string)
    ensures r != []
    ensures forall i :: 0 <= i < |r| ==> '0' <= r[i] <= '9'
  {
    if n < 10 then [DigitChar(n)] else NatToString(n / 10) + [DigitChar(n % 10)]
  }

  /** str(n) for an int: a minus sign before the digits of |n| when negative. */
  function IntToString(n: int): string
  {
    if n < 0 then "-" + NatToString(-n) else NatToString(n)
  }

  function ParseNat(s: string): nat
  {
    if s == [] then 0 else 10 * ParseNat(s[..|s| - 1]) + DigitValue(s[|s| - 1])
  }

  function ParseInt(s: string): int
  {
    if s != [] && s[0] == '-' then -(ParseNat(s[1..]) as int) else ParseNat(s)
  }

  lemma {:induction false} NatToStringRoundTrip(n: nat)
    ensures ParseNat(NatToString(n)) == n
  {
    if n >= 10 {
      NatToStringRoundTrip(n / 10);
      var s := NatToString(n / 10) + [DigitChar(n % 10)];
      assert s[..|s| - 1] == NatToString(n / 10);
    }
  }

  /** A leading minus sign negates the number the digits after it stand for. */
  lemma ParseSigned(digits: string, m: nat)
    requires ParseNat(digits) == m
    ensures ParseInt("-" + digits) == -(m as int)
  {
  }

  /** Text that starts with a digit is read as the natural number it stands for. */
  lemma ParseUnsigned(digits: string, m: nat)
    requires digits != [] && '0' <= digits[0] <= '9'
    requires ParseNat(digits) == m
    ensures ParseInt(digits) == m
  {
  }

  /** The decimal form of an int identifies it: parsing it back gives the number. */
  lemma IntToStringRoundTrip(n: int)
    ensures ParseInt(IntToString(n)) == n
  {
    if n < 0 {
      NatToStringRoundTrip(-n);
      ParseSigned(NatToString(-n), -n);
    } else {
      NatToStringRoundTrip(n);
      ParseUnsigned(NatToString(n), n);
    }
  }

  predicate EndsWith(s: string, suffix: string)
  {
    |suffix| <= |s| && s[|s| - |suffix|..] == suffix
  }
}
