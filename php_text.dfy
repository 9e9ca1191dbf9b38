/**
 * The PHP string functions the widgets call, on Dafny strings. A Dafny `char`
 * is one Unicode scalar value, so `|s|` is the code-point count that
 * `Unicode::strlen` returns.
 */
module PhpText {

  /** Number of occurrences of the character `c` in `s`. */
  function CharCount(c: char, s: string): (n: nat)
    ensures n <= |s|
    ensures n == 0 <==> c !in s
  {
    if s == [] then 0 else (if s[0] == c then 1 else 0) + CharCount(c, s[1..])
  }

  lemma {:induction false} CharCountAppend(c: char, a: string, b: string)
    ensures CharCount(c, a + b) == CharCount(c, a) + CharCount(c, b)
  {
    if a == [] {
      assert a + b == b;
    } else {
      assert (a + b)[1..] == a[1..] + b;
      CharCountAppend(c, a[1..], b);
    }
  }

  /**
   * `str_replace(c, r, s)` for a one-character search string: every
   * occurrence of `c` becomes `r`.
   */
  function ReplaceChar(s: string, c: char, r: string): (t: string)
    ensures c !in r ==> c !in t
  {
    if s == [] then []
    else (if s[0] == c then r else [s[0]]) + ReplaceChar(s[1..], c, r)
  }

  /** Each replaced character grows the text by `|r| - 1`. */
  lemma {:induction false} ReplaceCharLength(s: string, c: char, r: string)
    ensures |ReplaceChar(s, c, r)| == |s| + CharCount(c, s) * (|r| - 1)
  {
    if s != [] {
      ReplaceCharLength(s[1..], c, r);
      var k := CharCount(c, s[1..]);
      assert (k + 1) * (|r| - 1) == k * (|r| - 1) + (|r| - 1);
    }
  }

  /** Encoding dots as "--" adds two dashes per dot. */
  lemma {:induction false} DotEncodingDashes(s: string)
    ensures CharCount('-', ReplaceChar(s, '.', "--")) == CharCount('-', s) + 2 * CharCount('.', s)
  {
    if s != [] {
      var tail := ReplaceChar(s[1..], '.', "--");
      DotEncodingDashes(s[1..]);
      var head := if s[0] == '.' then "--" else [s[0]];
      CharCountAppend('-', head, tail);
      assert [s[0]][1..] == [];
      assert "--"[1..][1..] == [];
    }
  }

  /** Replacing each line feed by CR LF keeps the number of line feeds. */
  lemma {:induction false} CrLfEncodingLineFeeds(s: string)
    ensures CharCount('\n', ReplaceChar(s, '\n', "\r\n")) == CharCount('\n', s)
  {
    if s != [] {
      var tail := ReplaceChar(s[1..], '\n', "\r\n");
      CrLfEncodingLineFeeds(s[1..]);
      var head := if s[0] == '\n' then "\r\n" else [s[0]];
      CharCountAppend('\n', head, tail);
      assert [s[0]][1..] == [];
      assert "\r\n"[1..][1..] == [];
    }
  }

  /**
   * `str_replace('--', '.', s)`: every non-overlapping "--", scanned from the
   * left, becomes ".". It undoes the dot encoding of field definition ids.
   */
  function CollapseDoubleDash(s: string): (t: string)
    ensures |t| <= |s|
  {
    if |s| >= 2 && s[0] == '-' && s[1] == '-' then "." + CollapseDoubleDash(s[2..])
    else if s == [] then []
    else [s[0]] + CollapseDoubleDash(s[1..])
  }

  /** Replacing '.' by "--" is undone by collapsing "--", when `s` has no '-'. */
  lemma {:induction false} DotEncodingRoundTrip(s: string)
    requires '-' !in s
    ensures CollapseDoubleDash(ReplaceChar(s, '.', "--")) == s
  {
    if s != [] {
      var rest := ReplaceChar(s[1..], '.', "--");
      DotEncodingRoundTrip(s[1..]);
      if s[0] == '.' {
        assert ReplaceChar(s, '.', "--") == "--" + rest;
        assert ("--" + rest)[2..] == rest;
      } else {
        assert ReplaceChar(s, '.', "--") == [s[0]] + rest;
        assert ([s[0]] + rest)[1..] == rest;
      }
    }
  }

  /**
   * `explode(sep, s)`: the pieces of `s` between the non-overlapping
   * occurrences of `sep`, found from the left. PHP refuses an empty separator.
   */
  function Explode(s: string, sep: string): (parts: seq<string>)
    requires sep != []
    ensures |parts| >= 1
    decreases |s|
  {
    if |s| < |sep| then [s]
    else if s[..|sep|] == sep then [[]] + Explode(s[|sep|..], sep)
    else
      var rest := Explode(s[1..], sep);
      [[s[0]] + rest[0]] + rest[1..]
  }

  /** `implode(sep, parts)`. */
  function Implode(sep: string, parts: seq<string>): string
  {
    if parts == [] then []
    else if |parts| == 1 then parts[0]
    else parts[0] + sep + Implode(sep, parts[1..])
  }

  /**
   * The entry of a PHP array at `index`, with a missing entry read as
   * `blank`: what `$a[$index][...] = ...` writes into when it
   * auto-vivifies the entry.
   */
  function ArrayEntry<V>(m: map<string, V>, index: string, blank: V): V
  {
    if index in m then m[index] else blank
  }

  /** Imploding one more part appends the separator and that part. */
  lemma {:induction false} ImplodeSnoc(sep: string, parts: seq<string>, last: string)
    requires parts != []
    ensures Implode(sep, parts + [last]) == Implode(sep, parts) + sep + last
    decreases |parts|
  {
    if |parts| == 1 {
      assert (parts + [last])[1..] == [last];
    } else {
      assert (parts + [last])[1..] == parts[1..] + [last];
      ImplodeSnoc(sep, parts[1..], last);
    }
  }

  /** `implode` undoes `explode`. */
  lemma {:induction false} ImplodeExplode(s: string, sep: string)
    requires sep != []
    ensures Implode(sep, Explode(s, sep)) == s
    decreases |s|
  {
    if |s| < |sep| {
    } else if s[..|sep|] == sep {
      ImplodeExplode(s[|sep|..], sep);
      ImplodeEmptyHead(sep, Explode(s[|sep|..], sep));
      assert s == s[..|sep|] + s[|sep|..];
    } else {
      ImplodeExplode(s[1..], sep);
      ImplodeExtendHead(sep, s[0], Explode(s[1..], sep));
      assert s == [s[0]] + s[1..];
    }
  }

  /** A leading empty part contributes only its separator. */
  lemma ImplodeEmptyHead(sep: string, parts: seq<string>)
    requires parts != []
    ensures Implode(sep, [[]] + parts) == sep + Implode(sep, parts)
  {
    assert ([[]] + parts)[1..] == parts;
  }

  /** Prefixing the first part with `c` prefixes the imploded string with `c`. */
  lemma ImplodeExtendHead(sep: string, c: char, parts: seq<string>)
    requires parts != []
    ensures Implode(sep, [[c] + parts[0]] + parts[1..]) == [c] + Implode(sep, parts)
  {
    var extended := [[c] + parts[0]] + parts[1..];
    if |parts| > 1 {
      assert extended[1..] == parts[1..];
    }
  }

  /**
   * Reference count of the non-overlapping occurrences of `pat` in `s`,
   * scanning from the left and resuming after each match.
   */
  function Occurrences(s: string, pat: string): (n: nat)
    requires pat != []
    ensures n * |pat| <= |s|
    ensures n <= |s|
    decreases |s|
  {
    if |s| < |pat| then 0
    else if s[..|pat|] == pat then 1 + Occurrences(s[|pat|..], pat)
    else Occurrences(s[1..], pat)
  }

  /** `count(explode(sep, s)) - 1` is the number of occurrences of `sep`. */
  lemma {:induction false} ExplodeCountsOccurrences(s: string, sep: string)
    requires sep != []
    ensures |Explode(s, sep)| - 1 == Occurrences(s, sep)
    decreases |s|
  {
    if |s| < |sep| {
    } else if s[..|sep|] == sep {
      ExplodeCountsOccurrences(s[|sep|..], sep);
    } else {
      ExplodeCountsOccurrences(s[1..], sep);
    }
  }

  /** For a one-character pattern the non-overlapping count is the plain count. */
  lemma {:induction false} OccurrencesOfChar(s: string, c: char)
    ensures Occurrences(s, [c]) == CharCount(c, s)
  {
    if s != [] {
      OccurrencesOfChar(s[1..], c);
      assert s[..1] == [s[0]];
    }
  }

  /** The ASCII decimal digit for `d`. */
  function DigitChar(d: nat): (c: char)
    requires d < 10
    ensures '0' <= c <= '9'
  {
    ((d + '0' as int) as char)
  }

  /** The decimal text of `n`, as PHP writes an integer into a string. */
  function NatToString(n: nat): (s: string)
    ensures |s| >= 1
    ensures |s| == 1 <==> n < 10
    ensures forall i :: 0 <= i < |s| ==> '0' <= s[i] <= '9'
    decreases n
  {
    if n < 10 then [DigitChar(n)] else NatToString(n / 10) + [DigitChar(n % 10)]
  }

  /** Different numbers print differently. */
  lemma {:induction false} NatToStringInjective(m: nat, n: nat)
    requires NatToString(m) == NatToString(n)
    ensures m == n
    decreases n
  {
    if m >= 10 && n >= 10 {
      var sm, sn := NatToString(m), NatToString(n);
      assert sm[|sm| - 1] == DigitChar(m % 10);
      assert sn[|sn| - 1] == DigitChar(n % 10);
      assert sm[..|sm| - 1] == NatToString(m / 10);
      assert sn[..|sn| - 1] == NatToString(n / 10);
      NatToStringInjective(m / 10, n / 10);
    } else if m < 10 && n < 10 {
      assert NatToString(m)[0] == DigitChar(m);
    }
  }

  /** Bytes in the UTF-8 encoding of one code point. */
  function Utf8Width(c: char): (w: nat)
    ensures 1 <= w <= 4
    ensures w == 1 <==> (c as int) < 0x80
  {
    if (c as int) < 0x80 then 1
    else if (c as int) < 0x800 then 2
    else if (c as int) < 0x10000 then 3
    else 4
  }

  /** PHP's byte `strlen` of the UTF-8 encoding of `s`. */
  function Utf8Length(s: string): (n: nat)
    ensures n >= |s|
    ensures n == |s| <==> forall i :: 0 <= i < |s| ==> (s[i] as int) < 0x80
  {
    if s == [] then 0
    else
      assert forall i :: 1 <= i < |s| ==> s[1..][i - 1] == s[i];
      Utf8Width(s[0]) + Utf8Length(s[1..])
  }
}
