// Splitting and joining text as the standard library does. White space is Unicode's; upper and
// lower case are those of ASCII letters.
module Text {
  import opened Prelude
  import opened Sorting

  // The characters with the property White_Space.
  predicate IsSpace(c: char) {
    || c == ' ' || '\t' <= c <= '\r' || c == '\U{85}' || c == '\U{A0}' || c == '\U{1680}'
    || '\U{2000}' <= c <= '\U{200A}' || c == '\U{2028}' || c == '\U{2029}' || c == '\U{202F}'
    || c == '\U{205F}' || c == '\U{3000}'
  }

  predicate IsAscii(s: string) { forall c :: c in s ==> c < '\U{80}' }

  function LowerChar(c: char): char { if 'A' <= c <= 'Z' then ((c as int) + 32) as char else c }

  function UpperChar(c: char): char { if 'a' <= c <= 'z' then ((c as int) - 32) as char else c }

  // The decimal digits of a number.
  function Decimal(n: nat): string {
    (if n < 10 then "" else Decimal(n / 10)) + [DigitOf(n % 10)]
  }

  function DigitOf(n: nat): char
    requires n < 10
  {
    (n + '0' as int) as char
  }

  function Lower(s: string): (r: string)
    ensures |r| == |s| && forall i :: 0 <= i < |s| ==> r[i] == LowerChar(s[i])
  {
    seq(|s|, i requires 0 <= i < |s| => LowerChar(s[i]))
  }

  ghost predicate NoSpace(s: string) { forall i :: 0 <= i < |s| ==> !IsSpace(s[i]) }

  ghost predicate IsLower(s: string) { forall c :: c in s ==> LowerChar(c) == c }

  lemma LowerIsLower(s: string)
    ensures IsLower(Lower(s))
    ensures IsLower(s) ==> Lower(s) == s
  {
    forall c | c in Lower(s) ensures LowerChar(c) == c {
      var i :| 0 <= i < |s| && Lower(s)[i] == c;
    }
  }

  // ---------------------------------------------------------------- bytes

  // The number of bytes of a character in UTF-8.
  function Utf8Length(c: char): (n: nat)
    ensures 1 <= n <= 4
  {
    if c < '\U{80}' then 1 else if c < '\U{800}' then 2 else if c < '\U{10000}' then 3 else 4
  }

  function ByteLength(s: string): nat { if s == [] then 0 else Utf8Length(s[0]) + ByteLength(s[1..]) }

  // ---------------------------------------------------------------- pieces between separators

  function Find(s: string, sep: char): (i: nat)
    ensures i <= |s| && (i < |s| ==> s[i] == sep) && sep !in s[..i]
  {
    if s == [] || s[0] == sep then 0
    else
      var i := 1 + Find(s[1..], sep);
      assert s[..i] == [s[0]] + s[1..][..i - 1];
      i
  }

  function Split(s: string, sep: char): (parts: seq<string>)
    ensures parts != []
    decreases |s|
  {
    var i := Find(s, sep);
    if i == |s| then [s] else [s[..i]] + Split(s[i + 1..], sep)
  }

  function Join(parts: seq<string>, sep: char): string {
    if parts == [] then ""
    else if |parts| == 1 then parts[0]
    else parts[0] + [sep] + Join(parts[1..], sep)
  }

  lemma FindFirst(a: string, sep: char, b: string)
    requires sep !in a
    ensures Find(a + [sep] + b, sep) == |a|
  {
    var s := a + [sep] + b;
    var i := Find(s, sep);
    assert s[|a|] == sep && forall k :: 0 <= k < |a| ==> s[k] == a[k];
    assert forall k :: 0 <= k < i ==> s[..i][k] == s[k];
  }

  lemma FindNone(s: string, sep: char)
    requires sep !in s
    ensures Find(s, sep) == |s|
  {}

  lemma {:induction false} SplitOfJoin(parts: seq<string>, sep: char)
    requires parts != [] && forall p :: p in parts ==> sep !in p
    ensures Split(Join(parts, sep), sep) == parts
  {
    var first := parts[0];
    assert first in parts;
    if |parts| == 1 {
      FindNone(first, sep);
    } else {
      var s, rest := Join(parts, sep), Join(parts[1..], sep);
      FindFirst(first, sep, rest);
      assert s[..|first|] == first && s[|first| + 1..] == rest;
      SplitOfJoin(parts[1..], sep);
    }
  }

  lemma JoinOfTwo(first: string, rest: seq<string>, sep: char)
    requires rest != []
    ensures Join([first] + rest, sep) == first + [sep] + Join(rest, sep)
  {
    assert ([first] + rest)[1..] == rest;
  }

  lemma {:induction false} JoinOfSplit(s: string, sep: char)
    ensures Join(Split(s, sep), sep) == s
    decreases |s|
  {
    var i := Find(s, sep);
    if i < |s| {
      var first, after := s[..i], s[i + 1..];
      JoinOfSplit(after, sep);
      JoinOfTwo(first, Split(after, sep), sep);
      assert s == first + [sep] + after;
    }
  }

  lemma {:induction false} SplitHasNone(s: string, sep: char)
    ensures forall p :: p in Split(s, sep) ==> sep !in p
    decreases |s|
  {
    var i := Find(s, sep);
    if i < |s| { SplitHasNone(s[i + 1..], sep); } else { assert s[..i] == s; }
  }

  // ---------------------------------------------------------------- words

  // The length of the word at the start.
  function WordLength(s: string): (n: nat)
    ensures n <= |s| && NoSpace(s[..n]) && (n < |s| ==> IsSpace(s[n]))
  {
    if s == [] || IsSpace(s[0]) then 0
    else
      var n := 1 + WordLength(s[1..]);
      assert s[..n] == [s[0]] + s[1..][..n - 1];
      n
  }

  function Words(s: string): seq<string>
    decreases |s|
  {
    if s == [] then []
    else if IsSpace(s[0]) then Words(s[1..])
    else
      var n := WordLength(s);
      assert n > 0;
      [s[..n]] + Words(s[n..])
  }

  lemma {:induction false} WordsAreWords(s: string)
    ensures forall w :: w in Words(s) ==> w != [] && NoSpace(w) && forall c :: c in w ==> c in s
    decreases |s|
  {
    if s != [] {
      if IsSpace(s[0]) { WordsAreWords(s[1..]); } else { WordsAreWords(s[WordLength(s)..]); }
    }
  }

  lemma WordThenSpace(w: string, rest: string)
    requires NoSpace(w)
    ensures WordLength(w + [' '] + rest) == |w|
  {
    var s := w + [' '] + rest;
    var n := WordLength(s);
    assert s[|w|] == ' ' && forall k :: 0 <= k < |w| ==> s[k] == w[k];
    assert forall k :: 0 <= k < n ==> s[..n][k] == s[k];
  }

  lemma OneWord(w: string)
    requires NoSpace(w) && w != []
    ensures Words(w) == [w]
  {
    var n := WordLength(w);
    assert w[..|w|] == w && w[|w|..] == [];
  }

  lemma {:induction false} WordsOfJoin(parts: seq<string>)
    requires forall p :: p in parts ==> p != [] && NoSpace(p)
    ensures Words(Join(parts, ' ')) == parts
  {
    if parts != [] {
      var first := parts[0];
      assert first in parts;
      if |parts| == 1 {
        OneWord(first);
      } else {
        var rest := Join(parts[1..], ' ');
        var s := first + [' '] + rest;
        WordThenSpace(first, rest);
        assert s[..|first|] == first && s[|first|..] == [' '] + rest;
        assert ([' '] + rest)[1..] == rest;
        assert forall p :: p in parts[1..] ==> p in parts;
        WordsOfJoin(parts[1..]);
      }
    }
  }

  // ---------------------------------------------------------------- numbers

  // The largest 64-bit signed number.
  const LARGEST := 0x7fff_ffff_ffff_ffff

  predicate IsDigit(c: char) { '0' <= c <= '9' }

  function ValueOf(c: char): nat
    requires IsDigit(c)
  {
    c as int - '0' as int
  }

  // The number that the digits spell.
  function Digits(s: string): Option<nat> {
    if s == [] || !IsDigit(s[|s| - 1]) then None
    else if |s| == 1 then Some(ValueOf(s[0]))
    else
      var high := Digits(s[..|s| - 1]);
      if high.None? then None else Some(10 * high.value + ValueOf(s[|s| - 1]))
  }

  // A sign may come first; a minus never gives an accepted number.
  function ReadNumber(s: string): Option<nat> { if s != [] && s[0] == '+' then Digits(s[1..]) else Digits(s) }

  lemma {:induction false} DecimalRoundTrip(n: nat)
    ensures Digits(Decimal(n)) == Some(n) && IsDigit(Decimal(n)[0])
    ensures forall c :: c in Decimal(n) ==> IsDigit(c)
  {
    if n >= 10 {
      DecimalRoundTrip(n / 10);
      var s := Decimal(n);
      assert s[..|s| - 1] == Decimal(n / 10);
    }
  }

  lemma DecimalIsNumber(n: nat)
    ensures Decimal(n) != [] && ReadNumber(Decimal(n)) == Some(n)
    ensures NoSpace(Decimal(n)) && '-' !in Decimal(n)
  {
    DecimalRoundTrip(n);
    forall i | 0 <= i < |Decimal(n)| ensures !IsSpace(Decimal(n)[i]) { assert Decimal(n)[i] in Decimal(n); }
  }

  // ---------------------------------------------------------------- order

  // Text compares character by character.
  predicate TextLe(a: string, b: string) {
    a == [] || (b != [] && (a[0] < b[0] || (a[0] == b[0] && TextLe(a[1..], b[1..]))))
  }

  // The first character that differs decides.
  ghost predicate Before(a: string, b: string, k: nat) {
    k < |a| && k < |b| && a[..k] == b[..k] && a[k] < b[k]
  }

  lemma SameStart<T>(a: seq<T>, b: seq<T>, k: nat)
    requires k <= |a| && k <= |b| && a[..k] == b[..k]
    ensures k > 0 ==> a[0] == b[0]
  {
    if k > 0 { assert a[..k][0] == a[0]; }
  }

  lemma BeforeInTails(a: string, b: string, k: nat)
    requires a != [] && b != [] && a[0] == b[0]
    ensures Before(a[1..], b[1..], k) <==> Before(a, b, k + 1)
  {
    if k < |a| - 1 && k < |b| - 1 {
      assert a[..k + 1] == [a[0]] + a[1..][..k] && b[..k + 1] == [b[0]] + b[1..][..k];
      assert a[1..][..k] == a[..k + 1][1..] && b[1..][..k] == b[..k + 1][1..];
    }
  }

  // A text comes before those that go on from it.
  lemma {:induction false} TextsCompare(a: string, b: string)
    ensures TextLe(a, b) <==> a <= b || exists k: nat :: Before(a, b, k)
  {
    if a != [] && b != [] {
      var c, d := a[1..], b[1..];
      TextsCompare(c, d);
      assert a == [a[0]] + c && b == [b[0]] + d;
      if a[0] == b[0] {
        forall k: nat ensures Before(c, d, k) <==> Before(a, b, k + 1) { BeforeInTails(a, b, k); }
        assert !Before(a, b, 0);
        forall k: nat | Before(a, b, k) ensures Before(c, d, k - 1) { assert Before(a, b, k - 1 + 1); }
      } else {
        if a[0] < b[0] { assert Before(a, b, 0); }
        forall k: nat | Before(a, b, k) ensures k == 0 { SameStart(a, b, k); }
      }
    }
  }

  lemma {:induction false} TextOrder(a: string, b: string, c: string)
    ensures TextLe(a, b) || TextLe(b, a)
    ensures TextLe(a, b) && TextLe(b, c) ==> TextLe(a, c)
    ensures TextLe(a, b) && TextLe(b, a) ==> a == b
  {
    if a != [] && b != [] {
      TextOrder(a[1..], b[1..], if c == [] then [] else c[1..]);
      assert a == [a[0]] + a[1..] && b == [b[0]] + b[1..];
    }
  }

  function ByText(): (string, string) -> bool { (a, b) => TextLe(a, b) }

  lemma TextIsOrdered()
    ensures TotalOrder(ByText())
  {
    forall a, b, c
      ensures ByText()(a, b) || ByText()(b, a)
      ensures ByText()(a, b) && ByText()(b, c) ==> ByText()(a, c)
      ensures ByText()(a, b) && ByText()(b, a) ==> a == b
    {
      TextOrder(a, b, c);
    }
  }
}
