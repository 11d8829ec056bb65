// What splitting text into words and reading a number mean: every text is words with white space
// around them, and a number is spelled by its decimal digits.
module TextForms {
  import opened Prelude
  import opened Text

  // ---------------------------------------------------------------- words

  ghost predicate IsGap(s: string) { forall i :: 0 <= i < |s| ==> IsSpace(s[i]) }

  // Words with a gap before, between and after them; only those between must not be empty.
  function Laid(gaps: seq<string>, words: seq<string>): string
    requires |gaps| == |words| + 1
  {
    if words == [] then gaps[0] else gaps[0] + words[0] + Laid(gaps[1..], words[1..])
  }

  ghost predicate IsLayout(gaps: seq<string>, words: seq<string>) {
    && |gaps| == |words| + 1
    && (forall i :: 0 <= i < |gaps| ==> IsGap(gaps[i]))
    && (forall i :: 0 <= i < |words| ==> words[i] != [] && NoSpace(words[i]))
    && (forall i :: 0 < i < |words| ==> gaps[i] != [])
  }

  lemma {:induction false} SkipsGap(gap: string, rest: string)
    requires IsGap(gap)
    ensures Words(gap + rest) == Words(rest)
    decreases |gap|
  {
    if gap == [] {
      assert gap + rest == rest;
    } else {
      assert (gap + rest)[1..] == gap[1..] + rest;
      SkipsGap(gap[1..], rest);
    }
  }

  lemma NoneInside(s: string, n: nat)
    requires n <= |s| && NoSpace(s[..n])
    ensures forall i :: 0 <= i < n ==> !IsSpace(s[i])
  {
    assert forall i :: 0 <= i < n ==> s[i] == s[..n][i];
  }

  lemma TakesWord(word: string, rest: string)
    requires word != [] && NoSpace(word) && (rest == [] || IsSpace(rest[0]))
    ensures Words(word + rest) == [word] + Words(rest)
  {
    var s := word + rest;
    var n := WordLength(s);
    assert forall i :: 0 <= i < |word| ==> s[i] == word[i];
    assert n >= |word|;
    if rest != [] {
      assert s[|word|] == rest[0];
      NoneInside(s, n);
    }
    assert s[..n] == word && s[n..] == rest;
  }

  // However the words are laid out, they are what is read.
  lemma {:induction false} LaidIsRead(gaps: seq<string>, words: seq<string>)
    requires IsLayout(gaps, words)
    ensures Words(Laid(gaps, words)) == words
    decreases |words|
  {
    if words == [] {
      SkipsGap(gaps[0], "");
      assert gaps[0] + "" == gaps[0];
    } else {
      var rest := Laid(gaps[1..], words[1..]);
      assert gaps[0] + words[0] + rest == gaps[0] + (words[0] + rest);
      SkipsGap(gaps[0], words[0] + rest);
      StartsWithGap(gaps, words);
      TakesWord(words[0], rest);
      LaidIsRead(gaps[1..], words[1..]);
    }
  }

  lemma StartsWithGap(gaps: seq<string>, words: seq<string>)
    requires IsLayout(gaps, words) && words != []
    ensures
      var rest := Laid(gaps[1..], words[1..]);
      IsLayout(gaps[1..], words[1..]) && (rest == [] || IsSpace(rest[0]))
  {
    if |words| > 1 { assert gaps[1] != []; }
  }

  lemma SomeGap(s: string, gaps: seq<string>)
    requires Words(s) != [] && IsLayout(gaps, Words(s)) && s == Laid(gaps, Words(s)) && IsSpace(s[0])
    ensures gaps[0] != []
  {
    assert !IsSpace(Words(s)[0][0]);
  }

  lemma OneMoreSpace(c: char, gaps: seq<string>, words: seq<string>)
    requires IsSpace(c) && IsLayout(gaps, words)
    ensures
      var more := [[c] + gaps[0]] + gaps[1..];
      IsLayout(more, words) && Laid(more, words) == [c] + Laid(gaps, words)
  {
    var more := [[c] + gaps[0]] + gaps[1..];
    assert more[1..] == gaps[1..];
    if words != [] {
      var rest := words[0] + Laid(gaps[1..], words[1..]);
      assert Laid(gaps, words) == gaps[0] + rest && Laid(more, words) == more[0] + rest;
      assert ([c] + gaps[0]) + rest == [c] + (gaps[0] + rest);
    }
  }

  lemma OneMoreWord(word: string, rest: string, gaps: seq<string>)
    requires word != [] && NoSpace(word) && (rest == [] || IsSpace(rest[0]))
    requires IsLayout(gaps, Words(rest)) && rest == Laid(gaps, Words(rest))
    ensures
      var words := [word] + Words(rest);
      IsLayout([""] + gaps, words) && word + rest == Laid([""] + gaps, words)
  {
    var words, more := [word] + Words(rest), [""] + gaps;
    assert more[1..] == gaps && words[1..] == Words(rest);
    if Words(rest) != [] { SomeGap(rest, gaps); }
  }

  // And every text is laid out in that way, with the words that are read.
  lemma {:induction false} LayoutOf(s: string) returns (gaps: seq<string>)
    ensures IsLayout(gaps, Words(s)) && s == Laid(gaps, Words(s))
    decreases |s|
  {
    if s == [] {
      gaps := [""];
    } else if IsSpace(s[0]) {
      var later := LayoutOf(s[1..]);
      OneMoreSpace(s[0], later, Words(s));
      assert s == [s[0]] + s[1..];
      gaps := [[s[0]] + later[0]] + later[1..];
    } else {
      var n := WordLength(s);
      var later := LayoutOf(s[n..]);
      OneMoreWord(s[..n], s[n..], later);
      assert s == s[..n] + s[n..];
      gaps := [""] + later;
    }
  }

  // ---------------------------------------------------------------- numbers

  function Zeros(k: nat): string { seq(k, _ => '0') }

  // Decimal digits of the number, after any zeros.
  ghost predicate SpelledBy(s: string, n: nat, k: nat) { s == Zeros(k) + Decimal(n) }

  // A plus may come first.
  ghost predicate Spells(s: string, n: nat) {
    exists k :: SpelledBy(s, n, k) || (s != [] && s[0] == '+' && SpelledBy(s[1..], n, k))
  }

  lemma {:induction false} DigitsSpell(s: string) returns (k: nat)
    requires Digits(s).Some?
    ensures SpelledBy(s, Digits(s).value, k)
    decreases |s|
  {
    var d, n := ValueOf(s[|s| - 1]), Digits(s).value;
    assert s == s[..|s| - 1] + [DigitOf(d)];
    if |s| == 1 {
      k := 0;
    } else {
      var m := Digits(s[..|s| - 1]).value;
      var h := DigitsSpell(s[..|s| - 1]);
      assert n == 10 * m + d;
      if m > 0 {
        k := h;
        assert Decimal(n) == Decimal(m) + [DigitOf(d)];
      } else {
        k := h + 1;
        assert Decimal(0) == "0" && Decimal(n) == [DigitOf(d)];
        assert Zeros(k) == Zeros(h) + "0";
      }
    }
  }

  lemma {:induction false} ZerosDoNotCount(k: nat, s: string)
    requires Digits(s).Some?
    ensures Digits(Zeros(k) + s) == Digits(s)
    decreases |s|
  {
    var t := Zeros(k) + s;
    assert t[|t| - 1] == s[|s| - 1];
    if |s| > 1 {
      assert t[..|t| - 1] == Zeros(k) + s[..|s| - 1];
      ZerosDoNotCount(k, s[..|s| - 1]);
    } else if k > 0 {
      assert t[..|t| - 1] == Zeros(k);
      OnlyZeros(k);
    } else {
      assert t == s;
    }
  }

  lemma {:induction false} OnlyZeros(k: nat)
    requires k > 0
    ensures Digits(Zeros(k)) == Some(0)
  {
    if k > 1 {
      assert Zeros(k)[..k - 1] == Zeros(k - 1);
      OnlyZeros(k - 1);
    }
  }

  // A number is read exactly from the texts that spell it.
  lemma NumberIsReadExactly(s: string, n: nat)
    ensures ReadNumber(s) == Some(n) <==> Spells(s, n)
  {
    DecimalRoundTrip(n);
    if ReadNumber(s) == Some(n) {
      var k := DigitsSpell(if s[0] == '+' then s[1..] else s);
    }
    if k :| SpelledBy(s, n, k) {
      ZerosDoNotCount(k, Decimal(n));
      assert s[0] == if k > 0 then '0' else Decimal(n)[0];
    }
    if k :| s != [] && s[0] == '+' && SpelledBy(s[1..], n, k) { ZerosDoNotCount(k, Decimal(n)); }
  }

  lemma SpelledWithout(s: string, n: nat, c: char)
    requires Spells(s, n) && c != '+' && !IsDigit(c)
    ensures c !in s
  {
    DecimalRoundTrip(n);
    if k :| SpelledBy(s, n, k) { assert c !in Zeros(k); }
    if k :| s != [] && s[0] == '+' && SpelledBy(s[1..], n, k) {
      assert c !in Zeros(k) && s == [s[0]] + s[1..];
    }
  }

  // ---------------------------------------------------------------- characters

  // Unicode's white space.
  lemma SpacesAre(c: char)
    ensures
      var n := c as int;
      IsSpace(c) <==> n in {0x20, 0x85, 0xA0, 0x1680, 0x2028, 0x2029, 0x202F, 0x205F, 0x3000}
                      || 0x9 <= n <= 0xD || 0x2000 <= n <= 0x200A
  {}

  // A character of n bytes in UTF-8 has at most 7, 11, 16 or 21 bits, and so many as no fewer hold.
  lemma BytesHoldBits(c: char)
    ensures
      var n := c as int;
      match Utf8Length(c)
      case 1 => n <= 0x7F
      case 2 => 0x80 <= n <= 0x7FF
      case 3 => 0x800 <= n <= 0xFFFF
      case _ => 0x10000 <= n && Utf8Length(c) == 4
  {}
}
