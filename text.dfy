/**
 * The JavaScript string built-ins the service relies on, over `seq<char>`:
 * ASCII `toLowerCase`, `split` on a one-character separator, `join`,
 * `parseInt` of a decimal digit string, `String(n)` of a natural number and
 * substring search (`LIKE '%t%'`).
 */
module Text {

  /** ASCII lower-casing of one character. */
  function Lower(c: char): char {
    if 'A' <= c <= 'Z' then (c as int - 'A' as int + 'a' as int) as char else c
  }

  /**
   * `s.toLowerCase()`, restricted to ASCII: same length, no upper-case
   * letter left, each upper-case letter replaced by its lower-case partner
   * and every other character kept.
   */
  function LowerStr(s: string): (r: string)
    ensures |r| == |s|
    ensures forall i :: 0 <= i < |r| ==> !('A' <= r[i] <= 'Z')
    ensures forall i :: 0 <= i < |s| && 'A' <= s[i] <= 'Z' ==> r[i] as int == s[i] as int + 32
    ensures forall i :: 0 <= i < |s| && !('A' <= s[i] <= 'Z') ==> r[i] == s[i]
  {
    seq(|s|, i requires 0 <= i < |s| => Lower(s[i]))
  }

  /** `s.length`: UTF-16 code units, two for each character above U+FFFF. */
  function Utf16Length(s: string): (n: nat)
    ensures |s| <= n <= 2 * |s|
    ensures (forall i :: 0 <= i < |s| ==> s[i] as int <= 0xFFFF) ==> n == |s|
    ensures (forall i :: 0 <= i < |s| ==> s[i] as int > 0xFFFF) ==> n == 2 * |s|
  {
    if s == [] then 0 else (if s[0] as int > 0xFFFF then 2 else 1) + Utf16Length(s[1..])
  }

  /** Number of occurrences of `c` in `s`. */
  function Count(s: string, c: char): nat {
    if s == [] then 0 else (if s[0] == c then 1 else 0) + Count(s[1..], c)
  }

  /** Occurrences in a concatenation add up. */
  lemma {:induction false} CountAppend(a: string, b: string, c: char)
    ensures Count(a + b, c) == Count(a, c) + Count(b, c)
  {
    if a == [] {
      assert a + b == b;
    } else {
      assert (a + b)[0] == a[0] && (a + b)[1..] == a[1..] + b;
      CountAppend(a[1..], b, c);
    }
  }

  lemma {:induction false} CountAbsent(s: string, c: char)
    requires c !in s
    ensures Count(s, c) == 0
  {
    if s != [] {
      CountAbsent(s[1..], c);
    }
  }

  /** Joining parts free of `c` with the separator `[c]` puts exactly one `c` between neighbours. */
  lemma {:induction false} CountJoin(parts: seq<string>, c: char)
    requires parts != [] && forall k :: 0 <= k < |parts| ==> c !in parts[k]
    ensures Count(Join(parts, [c]), c) == |parts| - 1
  {
    CountAbsent(parts[0], c);
    if |parts| > 1 {
      var rest := Join(parts[1..], [c]);
      CountJoin(parts[1..], c);
      CountAppend(parts[0], [c], c);
      CountAppend(parts[0] + [c], rest, c);
      assert [c][1..] == [];
    }
  }

  /**
   * `s.split(sep)` for a one-character separator: the maximal runs between
   * separators, empty runs included; there is always one more part than
   * separators, and the first part is what precedes the first separator.
   */
  function Split(s: string, sep: char): (parts: seq<string>)
    ensures |parts| == Count(s, sep) + 1
    ensures forall k :: 0 <= k < |parts| ==> sep !in parts[k]
    ensures parts[0] <= s
    ensures |parts[0]| < |s| ==> s[|parts[0]|] == sep
    ensures |parts[0]| == |s| ==> parts == [s]
  {
    if s == [] then [""]
    else
      var rest := Split(s[1..], sep);
      assert s == [s[0]] + s[1..];
      if s[0] == sep then [""] + rest
      else [[s[0]] + rest[0]] + rest[1..]
  }

  /** `parts.join(sep)`: the parts with `sep` between neighbours and nowhere else. */
  function Join(parts: seq<string>, sep: string): (r: string)
    ensures parts == [] ==> r == ""
    ensures parts != [] ==> parts[0] <= r
  {
    if |parts| == 0 then ""
    else if |parts| == 1 then parts[0]
    else parts[0] + sep + Join(parts[1..], sep)
  }

  /** Joining one more part adds exactly one separator, before that part: there is no trailing separator. */
  lemma {:induction false} JoinSnoc(parts: seq<string>, x: string, sep: string)
    requires parts != []
    ensures Join(parts + [x], sep) == Join(parts, sep) + sep + x
  {
    if |parts| == 1 {
      assert parts + [x] == [parts[0], x];
    } else {
      assert (parts + [x])[1..] == parts[1..] + [x];
      JoinSnoc(parts[1..], x, sep);
    }
  }

  /** Prepending a character to the first part prepends it to the joined string. */
  lemma JoinConsFirst(c: char, parts: seq<string>, sep: string)
    requires parts != []
    ensures Join([[c] + parts[0]] + parts[1..], sep) == [c] + Join(parts, sep)
  {
    var extended := [[c] + parts[0]] + parts[1..];
    if |parts| > 1 {
      assert extended[1..] == parts[1..];
    }
  }

  /**
   * Splitting on `sep` and joining with the one-character string `[to]`
   * replaces every `sep` by `to` and leaves every other character in place.
   */
  lemma {:induction false} JoinSplit(s: string, sep: char, to: char)
    ensures |Join(Split(s, sep), [to])| == |s|
    ensures forall i :: 0 <= i < |s| ==>
      Join(Split(s, sep), [to])[i] == if s[i] == sep then to else s[i]
  {
    if s != [] {
      var rest := Split(s[1..], sep);
      JoinSplit(s[1..], sep, to);
      var tail := Join(rest, [to]);
      var joined := Join(Split(s, sep), [to]);
      if s[0] == sep {
        assert Split(s, sep) == [""] + rest;
        assert joined == [to] + tail;
      } else {
        JoinConsFirst(s[0], rest, [to]);
        assert joined == [s[0]] + tail;
      }
      forall i | 1 <= i < |s|
        ensures joined[i] == if s[i] == sep then to else s[i]
      {
        assert joined[i] == tail[i - 1] && s[1..][i - 1] == s[i];
      }
    }
  }

  /** Splitting on a character and joining with that same character gives the string back. */
  lemma SplitJoinRoundTrip(s: string, sep: char)
    ensures Join(Split(s, sep), [sep]) == s
  {
    JoinSplit(s, sep, sep);
  }

  /** A string without the separator splits into itself alone. */
  lemma SplitWithoutSeparator(s: string, sep: char)
    requires sep !in s
    ensures Split(s, sep) == [s]
  {
    var parts := Split(s, sep);
    if |parts[0]| < |s| {
      assert s[|parts[0]|] in s;
    }
  }

  /** The first separator ends the first part; the rest splits on its own. */
  lemma {:induction false} SplitAtFirstSeparator(a: string, sep: char, b: string)
    requires sep !in a
    ensures Split(a + [sep] + b, sep) == [a] + Split(b, sep)
  {
    var s := a + [sep] + b;
    if a == [] {
      assert s[1..] == b;
    } else {
      assert s[1..] == a[1..] + [sep] + b;
      SplitAtFirstSeparator(a[1..], sep, b);
      assert [a[0]] + a[1..] == a;
    }
  }

  /**
   * Splitting `pre + parts.join(", ")` on `','` gives back the parts, each but
   * the first with the space of the separator in front, as long as no part
   * contains a comma.
   */
  lemma {:induction false} SplitCommaJoin(parts: seq<string>, pre: string)
    requires parts != [] && ',' !in pre
    requires forall k :: 0 <= k < |parts| ==> ',' !in parts[k]
    ensures |Split(pre + Join(parts, ", "), ',')| == |parts|
    ensures Split(pre + Join(parts, ", "), ',')[0] == pre + parts[0]
    ensures forall k :: 1 <= k < |parts| ==> Split(pre + Join(parts, ", "), ',')[k] == " " + parts[k]
  {
    assert ',' !in pre + parts[0];
    if |parts| == 1 {
      SplitWithoutSeparator(pre + parts[0], ',');
    } else {
      var head := pre + parts[0];
      var rest := Join(parts[1..], ", ");
      var tail := " " + rest;
      assert Join(parts, ", ") == parts[0] + ", " + rest;
      assert pre + Join(parts, ", ") == head + [','] + tail;
      SplitAtFirstSeparator(head, ',', tail);
      assert ',' !in " ";
      SplitCommaJoin(parts[1..], " ");
      var later := Split(tail, ',');
      forall k | 1 <= k < |parts|
        ensures later[k - 1] == " " + parts[k]
      {
        if k > 1 {
          assert parts[1..][k - 1] == parts[k];
        }
      }
    }
  }

  /** `t` occurs in `s` starting at index `i`. */
  predicate OccursAt(s: string, t: string, i: nat) {
    i + |t| <= |s| && s[i..i + |t|] == t
  }

  /** `t` occurs in `s` as a contiguous substring. */
  predicate Contains(s: string, t: string) {
    exists i: nat | i <= |s| :: OccursAt(s, t, i)
  }

  predicate IsDigit(c: char) { '0' <= c <= '9' }

  predicate AllDigits(s: string) { forall i :: 0 <= i < |s| ==> IsDigit(s[i]) }

  function DigitValue(c: char): nat
    requires IsDigit(c)
  {
    c as int - '0' as int
  }

  function DigitChar(d: nat): char
    requires d < 10
  {
    ('0' as int + d) as char
  }

  function Pow10(n: nat): nat {
    if n == 0 then 1 else 10 * Pow10(n - 1)
  }

  /** `parseInt(s)` for a string of decimal digits: its value, below 10 to the power of its length. */
  function ParseDecimal(s: string): (v: nat)
    requires AllDigits(s)
    ensures v < Pow10(|s|)
  {
    if s == [] then 0 else 10 * ParseDecimal(s[..|s| - 1]) + DigitValue(s[|s| - 1])
  }

  /** `String(n)` for a natural number: its decimal digits without leading zeros. */
  function DecimalString(n: nat): (s: string)
    ensures |s| >= 1 && AllDigits(s)
    ensures |s| > 1 ==> s[0] != '0'
  {
    if n < 10 then [DigitChar(n)] else DecimalString(n / 10) + [DigitChar(n % 10)]
  }

  /** `parseInt(String(n)) === n`. */
  lemma {:induction false} ParseDecimalString(n: nat)
    ensures ParseDecimal(DecimalString(n)) == n
  {
    var s := DecimalString(n);
    if n >= 10 {
      ParseDecimalString(n / 10);
      assert s[..|s| - 1] == DecimalString(n / 10);
    }
  }
}
