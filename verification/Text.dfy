// The string helpers of the host language that the modelled scripts lean on:
// optional values, whitespace, trimming, splitting, joining, substring search and
// decimal numerals.
module Text {

  datatype Option<T> = None | Some(value: T)

  // Concatenation regrouped.
  lemma Regroup<T>(a: seq<T>, b: seq<T>, c: seq<T>)
    ensures a + (b + c) == (a + b) + c
  {
  }

  // The characters a regular expression's `\s` matches and `trim` removes.
  predicate IsSpace(c: char) {
    || c == ' ' || '\t' <= c <= '\r' || c == '\U{00A0}' || c == '\U{1680}'
    || c == '\U{2028}' || c == '\U{2029}' || c == '\U{202F}' || c == '\U{205F}'
    || c == '\U{3000}' || c == '\U{FEFF}'
    || '\U{2000}' <= c <= '\U{200A}'
  }

  predicate IsDigit(c: char) { '0' <= c <= '9' }

  predicate IsLetter(c: char) { 'A' <= c <= 'Z' || 'a' <= c <= 'z' }

  predicate IsAlnum(c: char) { IsLetter(c) || IsDigit(c) }

  predicate AllSpace(s: string) { forall i | 0 <= i < |s| :: IsSpace(s[i]) }

  predicate AllAlnum(s: string) { forall i | 0 <= i < |s| :: IsAlnum(s[i]) }

  function ToLower(c: char): char {
    if 'A' <= c <= 'Z' then (c as int + 32) as char else c
  }

  function ToUpper(c: char): char {
    if 'a' <= c <= 'z' then (c as int - 32) as char else c
  }

  function LowerAll(s: string): (r: string)
    ensures |r| == |s|
    ensures forall i | 0 <= i < |s| :: r[i] == ToLower(s[i])
  {
    seq(|s|, i requires 0 <= i < |s| => ToLower(s[i]))
  }

  function TrimStart(s: string): (r: string)
    ensures |r| <= |s|
    ensures r == "" || !IsSpace(r[0])
  {
    if s != "" && IsSpace(s[0]) then TrimStart(s[1..]) else s
  }

  function TrimEnd(s: string): (r: string)
    ensures |r| <= |s|
    ensures r == "" || !IsSpace(r[|r| - 1])
  {
    if s != "" && IsSpace(s[|s| - 1]) then TrimEnd(s[..|s| - 1]) else s
  }

  function Trim(s: string): string { TrimEnd(TrimStart(s)) }

  // Trimming takes a blank prefix or suffix off, and nothing else.
  lemma {:induction false} TrimStartCuts(s: string)
    ensures exists blank :: AllSpace(blank) && s == blank + TrimStart(s)
  {
    if s != "" && IsSpace(s[0]) {
      TrimStartCuts(s[1..]);
      var blank :| AllSpace(blank) && s[1..] == blank + TrimStart(s[1..]);
      assert s == ([s[0]] + blank) + TrimStart(s);
    } else {
      assert AllSpace("") && s == "" + TrimStart(s);
    }
  }

  lemma {:induction false} TrimEndCuts(s: string)
    ensures exists blank :: AllSpace(blank) && s == TrimEnd(s) + blank
  {
    if s != "" && IsSpace(s[|s| - 1]) {
      TrimEndCuts(s[..|s| - 1]);
      var blank :| AllSpace(blank) && s[..|s| - 1] == TrimEnd(s[..|s| - 1]) + blank;
      assert s == TrimEnd(s) + (blank + [s[|s| - 1]]);
    } else {
      assert AllSpace("") && s == TrimEnd(s) + "";
    }
  }

  // Trimming what has no whitespace at either end changes nothing.
  lemma TrimPadded(left: string, s: string, right: string)
    requires AllSpace(left) && AllSpace(right)
    requires s != "" ==> !IsSpace(s[0]) && !IsSpace(s[|s| - 1])
    ensures Trim(left + s + right) == s
  {
    var rest := s + right;
    assert left + s + right == left + rest;
    TrimStartPadded(left, rest);
    if s == "" {
      assert rest == right;
      TrimStartAll(right);
    } else {
      assert rest[0] == s[0];
      assert TrimStart(rest) == rest;
      TrimEndPadded(s, right);
    }
  }

  lemma {:induction false} TrimStartPadded(left: string, s: string)
    requires AllSpace(left)
    ensures TrimStart(left + s) == TrimStart(s)
  {
    if left == "" {
      assert left + s == s;
    } else {
      assert (left + s)[1..] == left[1..] + s;
      TrimStartPadded(left[1..], s);
    }
  }

  lemma {:induction false} TrimStartAll(s: string)
    requires AllSpace(s)
    ensures TrimStart(s) == ""
  {
    if s != "" {
      TrimStartAll(s[1..]);
    }
  }

  lemma {:induction false} TrimEndPadded(s: string, right: string)
    requires AllSpace(right)
    ensures TrimEnd(s + right) == TrimEnd(s)
  {
    if right == "" {
      assert s + right == s;
    } else {
      assert (s + right)[..|s + right| - 1] == s + right[..|right| - 1];
      TrimEndPadded(s, right[..|right| - 1]);
    }
  }

  // `s.split(c)`: always at least one piece.
  function Split(s: string, c: char): (r: seq<string>)
    ensures |r| >= 1
    ensures forall piece | piece in r :: c !in piece
  {
    if s == "" then [""]
    else
      var rest := Split(s[1..], c);
      if s[0] == c then [""] + rest else [[s[0]] + rest[0]] + rest[1..]
  }

  function Each(pieces: seq<string>, f: string -> string): (r: seq<string>)
    ensures |r| == |pieces|
  {
    if pieces == [] then [] else [f(pieces[0])] + Each(pieces[1..], f)
  }

  function Join(parts: seq<string>, separator: string): string {
    if parts == [] then ""
    else if |parts| == 1 then parts[0]
    else parts[0] + separator + Join(parts[1..], separator)
  }

  lemma {:induction false} SplitPrefix(head: string, c: char, tail: string)
    requires c !in head
    ensures Split(head + [c] + tail, c) == [head] + Split(tail, c)
  {
    if head == "" {
      assert head + [c] + tail == [c] + tail;
    } else {
      assert (head + [c] + tail)[1..] == head[1..] + [c] + tail;
      SplitPrefix(head[1..], c, tail);
      assert [head[0]] + head[1..] == head;
    }
  }

  lemma {:induction false} SplitNone(s: string, c: char)
    requires c !in s
    ensures Split(s, c) == [s]
  {
    if s != "" {
      SplitNone(s[1..], c);
      assert [s[0]] + s[1..] == s;
    }
  }

  // Splitting what was joined gives the pieces back.
  lemma {:induction false} SplitJoin(parts: seq<string>, c: char)
    requires parts != []
    requires forall part | part in parts :: c !in part
    ensures Split(Join(parts, [c]), c) == parts
  {
    if |parts| == 1 {
      SplitNone(parts[0], c);
    } else {
      SplitPrefix(parts[0], c, Join(parts[1..], [c]));
      SplitJoin(parts[1..], c);
      assert parts == [parts[0]] + parts[1..];
    }
  }

  // Joining what was split gives the string back.
  lemma {:induction false} JoinSplit(s: string, c: char)
    ensures Join(Split(s, c), [c]) == s
  {
    if s != "" {
      JoinSplit(s[1..], c);
      var rest := Split(s[1..], c);
      if s[0] == c {
        assert ([""] + rest)[1..] == rest;
        assert "" + [c] + s[1..] == s;
      } else if |rest| == 1 {
        assert [s[0]] + rest[0] == s;
      } else {
        assert ([[s[0]] + rest[0]] + rest[1..])[1..] == rest[1..];
        assert ([s[0]] + rest[0]) + [c] + Join(rest[1..], [c]) == [s[0]] + (rest[0] + [c] + Join(rest[1..], [c]));
      }
    }
  }

  lemma {:induction false} SplitAt(s: string, c: char, tail: string)
    ensures Split(s + [c] + tail, c) == Split(s, c) + Split(tail, c)
  {
    var whole := s + [c] + tail;
    if s == "" {
      assert whole == [c] + tail;
    } else {
      assert whole[1..] == s[1..] + [c] + tail;
      SplitAt(s[1..], c, tail);
      var rest := Split(s[1..], c);
      if s[0] != c {
        assert ([[s[0]] + rest[0]] + rest[1..]) + Split(tail, c) == [[s[0]] + rest[0]] + (rest + Split(tail, c))[1..];
      } else {
        Regroup([""], rest, Split(tail, c));
      }
    }
  }

  lemma {:induction false} JoinAt(a: seq<string>, b: seq<string>, separator: string)
    requires a != [] && b != []
    ensures Join(a + b, separator) == Join(a, separator) + separator + Join(b, separator)
  {
    if |a| == 1 {
      assert (a + b)[1..] == b;
    } else {
      assert (a + b)[1..] == a[1..] + b;
      JoinAt(a[1..], b, separator);
      var x, y := a[0] + separator, Join(a[1..], separator);
      Regroup(x, y, separator + Join(b, separator));
      Regroup(y, separator, Join(b, separator));
      Regroup(x + y, separator, Join(b, separator));
    }
  }

  // Being the whole of a string, or a prefix up to a separator, is being a
  // prefix piece by piece.
  lemma WholePrefix(s: string, c: char, whole: string)
    ensures (whole == s || s + [c] <= whole) <==> Split(s, c) <= Split(whole, c)
  {
    if s + [c] <= whole {
      var tail := whole[|s| + 1..];
      assert whole == s + [c] + tail;
      SplitAt(s, c, tail);
    }
    var a, b := Split(s, c), Split(whole, c);
    if a <= b && a != b {
      var rest := b[|a|..];
      assert b == a + rest;
      JoinSplit(s, c);
      JoinSplit(whole, c);
      JoinAt(a, rest, [c]);
    } else if a == b {
      JoinSplit(s, c);
      JoinSplit(whole, c);
    }
  }

  // Whether `part` occurs in `s`: `s.includes(part)`.
  ghost predicate Contains(s: string, part: string) {
    exists before, after :: s == before + part + after
  }

  predicate Includes(s: string, part: string) {
    part <= s || (s != "" && Includes(s[1..], part))
  }

  lemma {:induction false} IncludesIsContains(s: string, part: string)
    ensures Includes(s, part) <==> Contains(s, part)
  {
    if part <= s {
      assert s == "" + part + s[|part|..];
    } else if s != "" {
      IncludesIsContains(s[1..], part);
      if Contains(s[1..], part) {
        ContainsWithin([s[0]], s[1..], "", part);
        assert s == [s[0]] + s[1..] + "";
      }
      if Contains(s, part) {
        var before, after :| s == before + part + after;
        assert before != "";
        assert s[1..] == before[1..] + part + after;
      }
    }
  }

  lemma ContainsWithin(before: string, s: string, after: string, part: string)
    requires Contains(s, part)
    ensures Contains(before + s + after, part)
  {
    var b, a :| s == b + part + a;
    assert before + s + after == (before + b) + part + (a + after);
  }

  lemma {:induction false} ContainsJoin(parts: seq<string>, separator: string, k: nat, part: string)
    requires k < |parts| && Contains(parts[k], part)
    ensures Contains(Join(parts, separator), part)
  {
    if |parts| == 1 {
    } else if k == 0 {
      ContainsWithin("", parts[0], separator + Join(parts[1..], separator), part);
      assert Join(parts, separator) == "" + parts[0] + (separator + Join(parts[1..], separator));
    } else {
      ContainsJoin(parts[1..], separator, k - 1, part);
      ContainsWithin(parts[0] + separator, Join(parts[1..], separator), "", part);
      assert Join(parts, separator) == (parts[0] + separator) + Join(parts[1..], separator) + "";
    }
  }

  // The decimal numeral of a number, as string interpolation prints it.
  function Decimal(n: nat): (r: string)
    ensures r != "" && forall i | 0 <= i < |r| :: IsDigit(r[i])
  {
    if n < 10 then [('0' as int + n) as char]
    else Decimal(n / 10) + [('0' as int + n % 10) as char]
  }

  // The number a numeral denotes.
  function Numeral(s: string): nat
    requires forall i | 0 <= i < |s| :: IsDigit(s[i])
  {
    if s == "" then 0
    else
      assert IsDigit(s[|s| - 1]);
      10 * Numeral(s[..|s| - 1]) + (s[|s| - 1] as int - '0' as int)
  }

  lemma {:induction false} NumeralOfDecimal(n: nat)
    ensures Numeral(Decimal(n)) == n
  {
    if n < 10 {
      assert Decimal(n)[..0] == "";
    } else {
      NumeralOfDecimal(n / 10);
      assert Decimal(n)[..|Decimal(n)| - 1] == Decimal(n / 10);
    }
  }
}
