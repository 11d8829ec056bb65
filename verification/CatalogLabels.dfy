// Model ids and the names a picker shows for them (crates/repomon-daemon/src/command_catalog.rs:1143-1154,
// 1205-1211). Upper and lower case are those of ASCII letters, so what is claimed of the source is
// claimed for ASCII text.
module CatalogLabels {
  import opened Text
  import opened TextForms

  function Capitalised(part: string): string {
    if part == [] then "" else [UpperChar(part[0])] + part[1..]
  }

  function Map(f: string -> string, parts: seq<string>): (r: seq<string>)
    ensures |r| == |parts| && forall i :: 0 <= i < |parts| ==> r[i] == f(parts[i])
  {
    seq(|parts|, i requires 0 <= i < |parts| => f(parts[i]))
  }

  // "gemini-3.8-flash" is shown as "Gemini 3.8 Flash".
  function LabelFor(id: string): string { Join(Map(Capitalised, Split(id, '-')), ' ') }

  predicate IsParen(c: char) { c == '(' || c == ')' }

  function TrimStart(s: string): string { if s != [] && IsParen(s[0]) then TrimStart(s[1..]) else s }

  function TrimEnd(s: string): string {
    if s != [] && IsParen(s[|s| - 1]) then TrimEnd(s[..|s| - 1]) else s
  }

  function Normal(part: string): string { Lower(TrimEnd(TrimStart(part))) }

  function NonEmpty(parts: seq<string>): seq<string> {
    if parts == [] then [] else (if parts[0] == [] then [] else [parts[0]]) + NonEmpty(parts[1..])
  }

  function Parts(name: string): seq<string> { NonEmpty(Map(Normal, Words(name))) }

  // "Gemini 3.8 Flash (High)" names the model "gemini-3.8-flash-high".
  function IdFromDisplay(name: string): string { Join(Parts(name), '-') }

  // ---------------------------------------------------------------- parts

  // A part of an id that survives being shown and read back.
  ghost predicate Plain(part: string) {
    && part != [] && IsLower(part) && NoSpace(part)
    && !IsParen(part[0]) && !IsParen(part[|part| - 1])
  }

  lemma {:induction false} TrimStartKeeps(s: string)
    ensures
      TrimStart(s) != [] ==>
        !IsParen(TrimStart(s)[0]) && s != [] && TrimStart(s)[|TrimStart(s)| - 1] == s[|s| - 1]
    ensures NoSpace(s) ==> NoSpace(TrimStart(s))
    ensures forall c :: c in TrimStart(s) ==> c in s
  {
    if s != [] && IsParen(s[0]) { TrimStartKeeps(s[1..]); }
  }

  lemma {:induction false} TrimEndKeeps(s: string)
    ensures TrimEnd(s) != [] ==> !IsParen(TrimEnd(s)[|TrimEnd(s)| - 1]) && s != [] && TrimEnd(s)[0] == s[0]
    ensures NoSpace(s) ==> NoSpace(TrimEnd(s))
    ensures forall c :: c in TrimEnd(s) ==> c in s
  {
    if s != [] && IsParen(s[|s| - 1]) { TrimEndKeeps(s[..|s| - 1]); }
  }

  // What is left of a word is plain, or nothing is left; no other characters appear.
  lemma NormalIsPlain(w: string)
    requires NoSpace(w)
    ensures Normal(w) == [] || Plain(Normal(w))
    ensures '-' !in w ==> '-' !in Normal(w)
  {
    var a := TrimStart(w);
    var b := TrimEnd(a);
    TrimStartKeeps(w);
    TrimEndKeeps(a);
    LowerIsLower(b);
    if '-' in Normal(w) {
      var i :| 0 <= i < |b| && Lower(b)[i] == '-';
      assert b[i] in b;
    }
  }

  lemma {:induction false} InNonEmpty(parts: seq<string>, p: string)
    ensures p in NonEmpty(parts) <==> p in parts && p != []
  {
    if parts != [] { InNonEmpty(parts[1..], p); }
  }

  lemma {:induction false} AllNonEmpty(parts: seq<string>)
    requires forall p :: p in parts ==> p != []
    ensures NonEmpty(parts) == parts
  {
    if parts != [] {
      assert parts[0] in parts;
      assert forall p :: p in parts[1..] ==> p in parts;
      AllNonEmpty(parts[1..]);
    }
  }

  lemma PartsArePlain(name: string)
    ensures forall p :: p in Parts(name) ==> Plain(p)
    ensures '-' !in name ==> forall p :: p in Parts(name) ==> '-' !in p
  {
    var words := Words(name);
    WordsAreWords(name);
    forall p | p in Parts(name) ensures Plain(p) && ('-' !in name ==> '-' !in p) {
      InNonEmpty(Map(Normal, words), p);
      var i :| 0 <= i < |words| && Map(Normal, words)[i] == p;
      assert words[i] in words;
      NormalIsPlain(words[i]);
    }
  }

  // ---------------------------------------------------------------- reading back a label

  lemma NormalOfCapitalised(part: string)
    requires Plain(part)
    ensures Normal(Capitalised(part)) == part
    ensures Capitalised(part) != [] && NoSpace(Capitalised(part))
  {
    var c := Capitalised(part);
    assert part[0] in part;
    assert !IsParen(c[0]) && !IsParen(c[|c| - 1]);
    assert TrimStart(c) == c && TrimEnd(c) == c;
    forall i | 0 <= i < |c| ensures LowerChar(c[i]) == part[i] && !IsSpace(c[i]) {
      assert part[i] in part;
    }
    assert Lower(c) == part;
  }

  lemma LabelOfPlainParts(parts: seq<string>)
    requires forall p :: p in parts ==> Plain(p)
    ensures Parts(Join(Map(Capitalised, parts), ' ')) == parts
  {
    var shown := Map(Capitalised, parts);
    forall w | w in shown ensures w != [] && NoSpace(w) {
      var i :| 0 <= i < |parts| && shown[i] == w;
      assert parts[i] in parts;
      NormalOfCapitalised(parts[i]);
    }
    WordsOfJoin(shown);
    forall i | 0 <= i < |parts| ensures Map(Normal, shown)[i] == parts[i] {
      assert parts[i] in parts;
      NormalOfCapitalised(parts[i]);
    }
    assert Map(Normal, shown) == parts;
    AllNonEmpty(parts);
  }

  // The ids that can be read back: none at all, or plain parts joined by dashes.
  ghost predicate Readable(id: string) { id == "" || forall p :: p in Split(id, '-') ==> Plain(p) }

  lemma {:induction false} JoinHasNo(parts: seq<string>, c: char)
    requires c != ' ' && forall p :: p in parts ==> c !in p
    ensures c !in Join(parts, ' ')
  {
    if parts != [] {
      assert parts[0] in parts;
      assert forall p :: p in parts[1..] ==> p in parts;
      JoinHasNo(parts[1..], c);
    }
  }

  lemma LabelHasNoDash(id: string)
    ensures '-' !in LabelFor(id)
  {
    var parts := Split(id, '-');
    SplitHasNone(id, '-');
    forall w | w in Map(Capitalised, parts) ensures '-' !in w {
      var i :| 0 <= i < |parts| && Capitalised(parts[i]) == w;
      assert parts[i] in parts;
    }
    JoinHasNo(Map(Capitalised, parts), '-');
  }

  // The id read back from a label is the id it was made for exactly when the id is readable:
  // its parts are not empty, in lower case, without white space and not in parentheses.
  lemma LabelRoundTripExactly(id: string)
    requires IsAscii(id)
    ensures IdFromDisplay(LabelFor(id)) == id <==> Readable(id)
  {
    if Readable(id) {
      if id == "" {
        EmptyRoundTrip();
      } else {
        LabelOfPlainParts(Split(id, '-'));
        JoinOfSplit(id, '-');
      }
    }
    var parts := Parts(LabelFor(id));
    LabelHasNoDash(id);
    PartsArePlain(LabelFor(id));
    if IdFromDisplay(LabelFor(id)) == id && parts != [] { SplitOfJoin(parts, '-'); }
  }

  lemma EmptyRoundTrip()
    ensures IdFromDisplay(LabelFor("")) == ""
  {
    assert Split("", '-') == [""];
    assert Map(Capitalised, [""]) == [""];
    assert LabelFor("") == "";
    assert Words("") == [];
    assert Map(Normal, []) == [];
  }

  function ShownAt(id: string, i: nat): char
    requires i < |id|
  {
    if id[i] == '-' then ' ' else if i == 0 || id[i - 1] == '-' then UpperChar(id[i]) else id[i]
  }

  ghost predicate Shows(text: string, id: string) {
    |text| == |id| && forall i :: 0 <= i < |id| ==> text[i] == ShownAt(id, i)
  }

  lemma ShowsPart(part: string)
    requires '-' !in part
    ensures Shows(Capitalised(part), part)
  {
    assert forall k :: 0 <= k < |part| ==> part[k] in part;
  }

  lemma ShowsMore(first: string, after: string, text: string)
    requires '-' !in first && Shows(text, after)
    ensures Shows(Capitalised(first) + [' '] + text, first + ['-'] + after)
  {
    var id, all := first + ['-'] + after, Capitalised(first) + [' '] + text;
    ShowsPart(first);
    forall i | 0 <= i < |id| ensures all[i] == ShownAt(id, i) {
      if i < |first| {
        assert all[i] == ShownAt(first, i) && id[i] == first[i] && id[i] in first;
      } else if i > |first| {
        assert all[i] == ShownAt(after, i - |first| - 1) && id[i] == after[i - |first| - 1];
      }
    }
  }

  // The label shows the id character by character: a blank for each dash, and each letter as it
  // is but for those that start a part, which are capital.
  lemma {:induction false} LabelShows(id: string)
    requires IsAscii(id)
    ensures Shows(LabelFor(id), id)
    decreases |id|
  {
    var i := Find(id, '-');
    if i < |id| {
      var first, after := id[..i], id[i + 1..];
      assert forall c :: c in after ==> c in id;
      LabelShows(after);
      LabelOfTwo(id, first, after);
      ShowsMore(first, after, LabelFor(after));
    } else {
      assert id[..i] == id;
      assert Map(Capitalised, [id]) == [Capitalised(id)];
      ShowsPart(id);
    }
  }

  lemma LabelOfTwo(id: string, first: string, after: string)
    requires id == first + ['-'] + after && '-' !in first
    ensures LabelFor(id) == Capitalised(first) + [' '] + LabelFor(after)
  {
    FindFirst(first, '-', after);
    assert id[..|first|] == first && id[|first| + 1..] == after;
    assert Map(Capitalised, Split(id, '-')) == [Capitalised(first)] + Map(Capitalised, Split(after, '-'));
    JoinOfTwo(Capitalised(first), Map(Capitalised, Split(after, '-')), ' ');
  }

  // ---------------------------------------------------------------- what is read of a name

  // A word: parentheses, what they enclose, and parentheses.
  datatype Piece = Piece(left: string, core: string, right: string)

  ghost predicate Parens(s: string) { forall i :: 0 <= i < |s| ==> s[i] == '(' || s[i] == ')' }

  ghost predicate IsPiece(p: Piece, word: string) {
    && word == p.left + p.core + p.right && Parens(p.left) && Parens(p.right)
    && (p.core != [] ==> !Parens(p.core[..1]) && !Parens(p.core[|p.core| - 1..]))
  }

  ghost predicate ArePieces(pieces: seq<Piece>, words: seq<string>) {
    |pieces| == |words| && forall i :: 0 <= i < |words| ==> IsPiece(pieces[i], words[i])
  }

  // What the words enclose, in lower case, but for words that enclose nothing.
  function Cores(pieces: seq<Piece>): seq<string> {
    if pieces == [] then []
    else (if pieces[0].core == [] then [] else [Lower(pieces[0].core)]) + Cores(pieces[1..])
  }

  lemma {:induction false} StartOf(s: string) returns (left: string)
    ensures Parens(left) && s == left + TrimStart(s)
  {
    if s != [] && IsParen(s[0]) {
      var more := StartOf(s[1..]);
      left := [s[0]] + more;
      assert s == [s[0]] + s[1..];
    } else {
      left := [];
    }
  }

  lemma {:induction false} EndOf(s: string) returns (right: string)
    ensures Parens(right) && s == TrimEnd(s) + right
  {
    if s != [] && IsParen(s[|s| - 1]) {
      var more := EndOf(s[..|s| - 1]);
      right := more + [s[|s| - 1]];
      assert s == s[..|s| - 1] + [s[|s| - 1]];
    } else {
      right := [];
    }
  }

  lemma PieceOf(word: string) returns (p: Piece)
    ensures IsPiece(p, word) && Normal(word) == Lower(p.core)
  {
    var inner := TrimStart(word);
    var left := StartOf(word);
    var right := EndOf(inner);
    var core := TrimEnd(inner);
    p := Piece(left, core, right);
    assert left + (core + right) == left + core + right;
    TrimStartKeeps(word);
    TrimEndKeeps(inner);
    if core != [] { EdgesShow(core); }
  }

  lemma EdgesShow(s: string)
    requires s != [] && !IsParen(s[0]) && !IsParen(s[|s| - 1])
    ensures !Parens(s[..1]) && !Parens(s[|s| - 1..])
  {
    assert s[..1][0] == s[0] && s[|s| - 1..][0] == s[|s| - 1];
  }

  lemma {:induction false} PiecesOf(words: seq<string>) returns (pieces: seq<Piece>)
    ensures ArePieces(pieces, words) && NonEmpty(Map(Normal, words)) == Cores(pieces)
  {
    if words == [] {
      pieces := [];
    } else {
      var p := PieceOf(words[0]);
      var more := PiecesOf(words[1..]);
      pieces := [p] + more;
      assert Map(Normal, words) == [Normal(words[0])] + Map(Normal, words[1..]);
      assert pieces[1..] == more;
    }
  }

  // Every name is words laid out with white space, each in parentheses or not, and the id read from it
  // is what they enclose, in lower case and joined by dashes.
  lemma NameIsReadExactly(name: string) returns (gaps: seq<string>, words: seq<string>, pieces: seq<Piece>)
    requires IsAscii(name)
    ensures IsLayout(gaps, words) && name == Laid(gaps, words) && ArePieces(pieces, words)
    ensures IdFromDisplay(name) == Join(Cores(pieces), '-')
  {
    gaps := LayoutOf(name);
    words := Words(name);
    pieces := PiecesOf(words);
  }

  // ---------------------------------------------------------------- reading twice

  lemma {:induction false} JoinOfPlain(parts: seq<string>)
    requires parts != [] && forall p :: p in parts ==> Plain(p)
    ensures Plain(Join(parts, '-'))
    ensures parts[0] != [] && Join(parts, '-')[0] == parts[0][0]
  {
    assert parts[0] in parts;
    if |parts| > 1 {
      assert forall p :: p in parts[1..] ==> p in parts;
      JoinOfPlain(parts[1..]);
      var rest := Join(parts[1..], '-');
      var s := parts[0] + ['-'] + rest;
      assert s[|s| - 1] == rest[|rest| - 1];
    }
  }

  lemma PlainIsFixed(s: string)
    requires Plain(s)
    ensures IdFromDisplay(s) == s
  {
    OneWord(s);
    assert TrimStart(s) == s && TrimEnd(s) == s;
    LowerIsLower(s);
    assert Map(Normal, [s]) == [s];
    AllNonEmpty([s]);
  }

  // What was read once reads as itself.
  lemma ReadingIsIdempotent(name: string)
    requires IsAscii(name)
    ensures IdFromDisplay(IdFromDisplay(name)) == IdFromDisplay(name)
  {
    var parts := Parts(name);
    PartsArePlain(name);
    if parts == [] {
      assert Words("") == [];
      assert Map(Normal, []) == [];
    } else {
      JoinOfPlain(parts);
      PlainIsFixed(Join(parts, '-'));
    }
  }

  // A name is returned as read exactly when it is a single plain word or empty; every other name
  // is changed, also one that names no known model.
  lemma ReturnedAsReadExactly(name: string)
    requires IsAscii(name)
    ensures IdFromDisplay(name) == name <==> name == "" || Plain(name)
  {
    var parts := Parts(name);
    PartsArePlain(name);
    if parts != [] { JoinOfPlain(parts); }
    if Plain(name) { PlainIsFixed(name); }
    if name == "" {
      assert Words("") == [];
      assert Map(Normal, []) == [];
    }
  }
}
