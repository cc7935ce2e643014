/**
 * The string operations of the JavaScript runtime that the application relies
 * on: the whitespace class of `\s` and `trim()`, ASCII case mapping, the
 * UTF-16 `length`, `includes`, `split(' ')` and decimal printing of numbers.
 */
module Text {

  /** A character matched by `\s` in an ECMAScript regular expression; these are
      also exactly the characters `String.prototype.trim` strips. */
  predicate IsJsSpace(c: char) {
    || c == '\t' || c == '\n' || c == '\U{000B}' || c == '\U{000C}' || c == '\r'
    || c == ' ' || c == '\U{00A0}' || c == '\U{1680}'
    || ('\U{2000}' <= c <= '\U{200A}')
    || c == '\U{2028}' || c == '\U{2029}' || c == '\U{202F}' || c == '\U{205F}'
    || c == '\U{3000}' || c == '\U{FEFF}'
  }

  predicate NoJsSpace(s: string) {
    forall i :: 0 <= i < |s| ==> !IsJsSpace(s[i])
  }

  // ---------------------------------------------------------------------------
  // Case mapping, restricted to ASCII letters

  function LowerChar(c: char): (r: char)
    ensures 'A' <= c <= 'Z' ==> 'a' <= r <= 'z'
    ensures !('A' <= c <= 'Z') ==> r == c
  {
    if 'A' <= c <= 'Z' then (c as int + 32) as char else c
  }

  function UpperChar(c: char): (r: char)
    ensures 'a' <= c <= 'z' ==> 'A' <= r <= 'Z'
    ensures !('a' <= c <= 'z') ==> r == c
  {
    if 'a' <= c <= 'z' then (c as int - 32) as char else c
  }

  /** `s.toLowerCase()` on ASCII letters; other characters are kept. */
  function Lower(s: string): (r: string)
    ensures |r| == |s|
    ensures forall i :: 0 <= i < |s| ==> r[i] == LowerChar(s[i])
  {
    if s == [] then [] else [LowerChar(s[0])] + Lower(s[1..])
  }

  /** `s.toUpperCase()` on ASCII letters; other characters are kept. */
  function Upper(s: string): (r: string)
    ensures |r| == |s|
    ensures forall i :: 0 <= i < |s| ==> r[i] == UpperChar(s[i])
  {
    if s == [] then [] else [UpperChar(s[0])] + Upper(s[1..])
  }

  lemma LowerCharIdempotent(c: char)
    ensures LowerChar(LowerChar(c)) == LowerChar(c)
  {
  }

  /** Lower-casing twice is lower-casing once. */
  lemma {:induction false} LowerIdempotent(s: string)
    ensures Lower(Lower(s)) == Lower(s)
  {
    if s != [] {
      LowerIdempotent(s[1..]);
      assert Lower(s)[1..] == Lower(s[1..]);
    }
  }

  lemma LowerAppend(a: string, b: string)
    ensures Lower(a + b) == Lower(a) + Lower(b)
  {
    var l, m := Lower(a + b), Lower(a) + Lower(b);
    assert forall i :: 0 <= i < |l| ==> l[i] == m[i];
  }

  /** Lower-casing forgets an earlier upper-casing. */
  lemma LowerOfUpper(s: string)
    ensures Lower(Upper(s)) == Lower(s)
  {
    var a, b := Lower(Upper(s)), Lower(s);
    assert forall i :: 0 <= i < |s| ==> a[i] == b[i];
  }

  /** Lower-casing keeps every character that is not an ASCII upper-case
      letter, so it keeps whitespace and does not create any. */
  lemma LowerKeepsSpaces(s: string)
    ensures forall i :: 0 <= i < |s| ==> (IsJsSpace(Lower(s)[i]) <==> IsJsSpace(s[i]))
  {
  }

  // ---------------------------------------------------------------------------
  // Trimming

  function TrimStart(s: string): (r: string)
    ensures |r| <= |s| && r == s[|s| - |r|..]
    ensures forall i :: 0 <= i < |s| - |r| ==> IsJsSpace(s[i])
    ensures r != [] ==> !IsJsSpace(r[0])
  {
    if s != [] && IsJsSpace(s[0]) then TrimStart(s[1..]) else s
  }

  function TrimEnd(s: string): (r: string)
    ensures |r| <= |s| && r == s[..|r|]
    ensures forall i :: |r| <= i < |s| ==> IsJsSpace(s[i])
    ensures r != [] ==> !IsJsSpace(r[|r| - 1])
  {
    if s != [] && IsJsSpace(s[|s| - 1]) then TrimEnd(s[..|s| - 1]) else s
  }

  /** `q` occurs in `s` at position `i`. */
  ghost predicate OccursAt(s: string, q: string, i: int) {
    0 <= i <= |s| - |q| && s[i..i + |q|] == q
  }

  /** `s.trim()`: the longest infix of `s` that neither starts nor ends with
      whitespace, obtained by dropping whitespace at both ends. */
  function Trim(s: string): (r: string)
    ensures exists i :: OccursAt(s, r, i)
                        && (forall k :: 0 <= k < i ==> IsJsSpace(s[k]))
                        && (forall k :: i + |r| <= k < |s| ==> IsJsSpace(s[k]))
    ensures r != [] ==> !IsJsSpace(r[0]) && !IsJsSpace(r[|r| - 1])
    ensures r == [] <==> forall i :: 0 <= i < |s| ==> IsJsSpace(s[i])
  {
    TrimmedEnds(s);
    TrimEnd(TrimStart(s))
  }

  /** Trimming the start and then the end drops only whitespace. */
  lemma TrimmedEnds(s: string)
    ensures var t := TrimStart(s); var r := TrimEnd(t);
            && OccursAt(s, r, |s| - |t|)
            && (forall k :: 0 <= k < |s| - |t| ==> IsJsSpace(s[k]))
            && (forall k :: |s| - |t| + |r| <= k < |s| ==> IsJsSpace(s[k]))
  {
    var t := TrimStart(s);
    var r := TrimEnd(t);
    PrefixOfSuffix(s, t, r, |s| - |t|);
  }

  /** A prefix `r` of the suffix `t` of `s` starting at `i` occurs in `s` at
      `i`, and whitespace after `r` in `t` is whitespace after it in `s`. */
  lemma PrefixOfSuffix(s: string, t: string, r: string, i: nat)
    requires i <= |s| && s[i..] == t && |r| <= |t| && r == t[..|r|]
    requires forall k :: |r| <= k < |t| ==> IsJsSpace(t[k])
    ensures OccursAt(s, r, i)
    ensures forall k :: i + |r| <= k < |s| ==> IsJsSpace(s[k])
  {
    assert s[i..i + |r|] == t[..|r|];
    forall k | i + |r| <= k < |s|
      ensures IsJsSpace(s[k])
    {
      assert s[k] == t[k - i];
    }
  }

  /** Trimming a string that has no whitespace at its ends changes nothing. */
  lemma TrimNoSpaces(s: string)
    requires NoJsSpace(s)
    ensures Trim(s) == s
  {
  }

  // ---------------------------------------------------------------------------
  // Length as JavaScript counts it

  /** `s.length`: the number of UTF-16 code units, two for a character outside
      the Basic Multilingual Plane. */
  function JsLength(s: string): (n: nat)
    ensures |s| <= n <= 2 * |s|
  {
    if s == [] then 0 else (if s[0] as int > 0xFFFF then 2 else 1) + JsLength(s[1..])
  }

  // ---------------------------------------------------------------------------
  // Substring search

  predicate StartsWith(s: string, prefix: string) {
    |prefix| <= |s| && s[..|prefix|] == prefix
  }

  /** `s.includes(q)`, scanning the start positions from left to right. */
  predicate Includes(s: string, q: string)
    decreases |s|
  {
    StartsWith(s, q) || (s != [] && Includes(s[1..], q))
  }

  /** The reference meaning of `includes`: `q` occurs somewhere in `s`. */
  ghost predicate OccursIn(s: string, q: string) {
    exists i :: OccursAt(s, q, i)
  }

  /** `includes` agrees with its reference meaning. */
  lemma {:induction false} IncludesIffOccurs(s: string, q: string)
    ensures Includes(s, q) <==> OccursIn(s, q)
    decreases |s|
  {
    if StartsWith(s, q) {
      assert OccursAt(s, q, 0);
    } else if s == [] {
      assert |q| > 0;
    } else {
      IncludesIffOccurs(s[1..], q);
      if exists i :: OccursAt(s, q, i) {
        var i :| OccursAt(s, q, i);
        if i != 0 {
          assert s[1..][i - 1..i - 1 + |q|] == s[i..i + |q|];
          assert OccursAt(s[1..], q, i - 1);
        }
      }
      if exists i :: OccursAt(s[1..], q, i) {
        var i :| OccursAt(s[1..], q, i);
        assert s[1..][i..i + |q|] == s[i + 1..i + 1 + |q|];
        assert OccursAt(s, q, i + 1);
      }
    }
  }

  /** Every string includes the empty string. */
  lemma IncludesEmpty(s: string)
    ensures Includes(s, "")
  {
    assert StartsWith(s, "");
  }

  // ---------------------------------------------------------------------------
  // Counting and splitting

  function CountChar(s: string, c: char): (n: nat)
    ensures n <= |s|
  {
    if s == [] then 0 else (if s[0] == c then 1 else 0) + CountChar(s[1..], c)
  }

  lemma {:induction false} CountCharAppend(a: string, b: string, c: char)
    ensures CountChar(a + b, c) == CountChar(a, c) + CountChar(b, c)
  {
    if a != [] {
      CountCharAppend(a[1..], b, c);
      assert (a + b)[0] == a[0];
      assert (a + b)[1..] == a[1..] + b;
    } else {
      assert a + b == b;
    }
  }

  /** A character is absent exactly when it is counted zero times. */
  lemma {:induction false} CountZeroIff(s: string, c: char)
    ensures CountChar(s, c) == 0 <==> c !in s
  {
    if s != [] {
      CountZeroIff(s[1..], c);
      assert s == [s[0]] + s[1..];
    }
  }

  /** A character that is not in `t` is counted once in `t + [c]`. */
  lemma CountAppendedOnce(t: string, c: char)
    requires c !in t
    ensures CountChar(t + [c], c) == 1
  {
    CountZeroIff(t, c);
    CountCharAppend(t, [c], c);
    assert CountChar([c], c) == 1;
  }

  /** `s.split(sep)` for a one-character separator: the fields between
      separators, empty ones included, so there is always at least one. */
  function Split(s: string, sep: char): (fields: seq<string>)
    ensures |fields| == CountChar(s, sep) + 1
    ensures forall k :: 0 <= k < |fields| ==> sep !in fields[k]
  {
    if s == [] then [""]
    else
      var rest := Split(s[1..], sep);
      if s[0] == sep then [""] + rest
      else [[s[0]] + rest[0]] + rest[1..]
  }

  /** Joining the fields with the separator gives the text back. */
  lemma {:induction false} SplitJoin(s: string, sep: char)
    ensures Join(Split(s, sep), sep) == s
  {
    if s != [] {
      var rest := Split(s[1..], sep);
      SplitJoin(s[1..], sep);
      assert s == [s[0]] + s[1..];
      if s[0] == sep {
        assert ([""] + rest)[1..] == rest;
      } else {
        JoinPrepend(s[0], rest, sep);
      }
    }
  }

  /** `fields.join(sep)`: the fields with one separator between neighbours. */
  function Join(fields: seq<string>, sep: char): string {
    if fields == [] then ""
    else if |fields| == 1 then fields[0]
    else fields[0] + [sep] + Join(fields[1..], sep)
  }

  /** A character put in front of the first field is put in front of the
      joined text. */
  lemma JoinPrepend(c: char, fields: seq<string>, sep: char)
    requires fields != []
    ensures Join([[c] + fields[0]] + fields[1..], sep) == [c] + Join(fields, sep)
  {
    var g := [[c] + fields[0]] + fields[1..];
    assert g[1..] == fields[1..];
  }

  /** Splitting a text with a separator gives its first field, the separator
      and the second field at its start, followed by nothing or by a
      separator. */
  lemma SplitSecondField(s: string, sep: char)
    requires |Split(s, sep)| >= 2
    ensures exists rest :: s == Split(s, sep)[0] + [sep] + Split(s, sep)[1] + rest
                           && (rest == [] || rest[0] == sep)
  {
    var f := Split(s, sep);
    SplitJoin(s, sep);
    assert s == Join(f, sep) == f[0] + [sep] + Join(f[1..], sep);
    var g := f[1..];
    assert g[0] == f[1];
    if |f| == 2 {
      assert Join(g, sep) == f[1];
      assert s == f[0] + [sep] + f[1] + [];
    } else {
      assert g[1..] == f[2..];
      var rest := [sep] + Join(f[2..], sep);
      assert Join(g, sep) == f[1] + rest;
      assert s == f[0] + [sep] + f[1] + rest;
    }
  }

  /** Two separator-free words joined by one separator split back into them. */
  lemma {:induction false} SplitTwoWords(w: string, t: string, sep: char)
    requires sep !in w && sep !in t
    ensures Split(w + [sep] + t, sep) == [w, t]
  {
    if w == [] {
      assert w + [sep] + t == [sep] + t;
      assert ([sep] + t)[1..] == t;
      SplitSeparatorFree(t, sep);
    } else {
      SplitTwoWords(w[1..], t, sep);
      assert (w + [sep] + t)[1..] == w[1..] + [sep] + t;
      assert [w[0]] + w[1..] == w;
    }
  }

  /** The two words in front of a separator or the end of the text are the
      first two fields. */
  lemma {:induction false} SplitFirstTwo(w: string, t: string, rest: string, sep: char)
    requires sep !in w && sep !in t && (rest == [] || rest[0] == sep)
    ensures |Split(w + [sep] + t + rest, sep)| >= 2
    ensures Split(w + [sep] + t + rest, sep)[0] == w && Split(w + [sep] + t + rest, sep)[1] == t
  {
    var tail := t + rest;
    SplitStartsEmpty(rest, sep);
    SplitFieldPrefix(t, rest, sep);
    assert Split(tail, sep)[0] == t;
    var u := [sep] + tail;
    SplitAfterSeparator(tail, sep);
    SplitFieldPrefix(w, u, sep);
    assert w + [sep] + t + rest == w + u;
  }

  /** A text that is empty or starts with the separator has an empty first
      field. */
  lemma SplitStartsEmpty(rest: string, sep: char)
    requires rest == [] || rest[0] == sep
    ensures Split(rest, sep)[0] == ""
  {
  }

  /** A leading separator ends an empty first field. */
  lemma SplitAfterSeparator(x: string, sep: char)
    ensures Split([sep] + x, sep) == [""] + Split(x, sep)
  {
    assert ([sep] + x)[1..] == x;
  }

  /** Separator-free text in front of `rest` extends the first field of `rest`. */
  lemma {:induction false} SplitFieldPrefix(w: string, rest: string, sep: char)
    requires sep !in w
    ensures Split(w + rest, sep) == [w + Split(rest, sep)[0]] + Split(rest, sep)[1..]
  {
    if w == [] {
      assert w + rest == rest;
      var f := Split(rest, sep);
      assert [f[0]] + f[1..] == f;
      assert w + f[0] == f[0];
    } else {
      var f := Split(rest, sep);
      var s := w + rest;
      assert s[0] == w[0] && s[0] != sep;
      assert s[1..] == w[1..] + rest;
      SplitFieldPrefix(w[1..], rest, sep);
      var g := Split(s[1..], sep);
      assert g == [w[1..] + f[0]] + f[1..];
      assert Split(s, sep) == [[w[0]] + g[0]] + g[1..];
      assert g[1..] == f[1..];
      assert [w[0]] + g[0] == w + f[0];
    }
  }

  lemma {:induction false} SplitSeparatorFree(t: string, sep: char)
    requires sep !in t
    ensures Split(t, sep) == [t]
  {
    if t != [] {
      SplitSeparatorFree(t[1..], sep);
      assert [t[0]] + t[1..] == t;
    }
  }

  // ---------------------------------------------------------------------------
  // Numbers as text

  function DigitChar(d: nat): (c: char)
    requires d < 10
    ensures '0' <= c <= '9'
  {
    ('0' as int + d) as char
  }

  /** `String(n)` for a non-negative integer: its decimal digits, with no
      leading zero. */
  function Decimal(n: nat): (s: string)
    ensures s != [] && forall i :: 0 <= i < |s| ==> '0' <= s[i] <= '9'
    ensures |s| > 1 ==> s[0] != '0'
  {
    if n < 10 then [DigitChar(n)] else Decimal(n / 10) + [DigitChar(n % 10)]
  }
}
