/** ASCII character classes and the few Python string operations the backend
    relies on: lower/upper/title casing, split/join on one separator,
    whitespace splitting and stripping. Only ASCII letters change case;
    every other character is left as it is. */
module Text {

  predicate IsUpper(c: char) { 'A' <= c <= 'Z' }
  predicate IsLower(c: char) { 'a' <= c <= 'z' }
  predicate IsDigit(c: char) { '0' <= c <= '9' }
  predicate IsLetter(c: char) { IsUpper(c) || IsLower(c) }

  /** Python's str.isspace() restricted to ASCII: space, \t \n \v \f \r and
      the four separator controls 0x1C-0x1F. */
  predicate IsSpace(c: char) {
    c == ' ' || (9 <= c as int <= 13) || (28 <= c as int <= 31)
  }

  function Lower(c: char): (r: char)
    ensures !IsUpper(r)
    ensures IsLetter(c) <==> IsLetter(r)
    ensures IsDigit(c) <==> IsDigit(r)
    ensures IsLower(c) ==> r == c
    ensures !IsLetter(c) ==> r == c
  {
    if IsUpper(c) then (c as int + 32) as char else c
  }

  function Upper(c: char): (r: char)
    ensures !IsLower(r)
    ensures IsLetter(c) <==> IsLetter(r)
    ensures IsLower(c) ==> IsUpper(r) && Lower(r) == c
    ensures !IsLetter(c) ==> r == c
  {
    if IsLower(c) then (c as int - 32) as char else c
  }

  predicate NoUpper(s: string) { forall i :: 0 <= i < |s| ==> !IsUpper(s[i]) }
  predicate AllLower(s: string) { forall i :: 0 <= i < |s| ==> IsLower(s[i]) }
  predicate AllDigits(s: string) { forall i :: 0 <= i < |s| ==> IsDigit(s[i]) }

  /** str.lower() */
  function LowerStr(s: string): (r: string)
    ensures |r| == |s|
    ensures forall i :: 0 <= i < |s| ==> r[i] == Lower(s[i])
    ensures NoUpper(r)
  {
    if s == [] then [] else [Lower(s[0])] + LowerStr(s[1..])
  }

  lemma {:induction false} LowerStrAppend(a: string, b: string)
    ensures LowerStr(a + b) == LowerStr(a) + LowerStr(b)
  {
    if a != [] {
      assert (a + b)[1..] == a[1..] + b;
      LowerStrAppend(a[1..], b);
    }
  }

  lemma LowerConcat(a: string, b: string, la: string, lb: string)
    requires LowerStr(a) == la && LowerStr(b) == lb
    ensures LowerStr(a + b) == la + lb
  {
    LowerStrAppend(a, b);
  }

  lemma LowerStrNoUpper(s: string)
    requires NoUpper(s)
    ensures LowerStr(s) == s
  {
  }

  /** Lower-casing a string whose first capital is c. */
  lemma LowerCapital(a: string, c: char, b: string)
    requires NoUpper(a) && IsUpper(c)
    ensures LowerStr(a + [c] + b) == a + [Lower(c)] + LowerStr(b)
  {
    LowerStrAppend(a + [c], b);
    LowerStrAppend(a, [c]);
    LowerStrNoUpper(a);
    assert LowerStr([c]) == [Lower(c)];
  }

  /** str.isdigit(): non-empty and every character a digit. */
  predicate IsDigitStr(s: string) { |s| > 0 && AllDigits(s) }

  /** str.title(), ASCII only: a letter is upper-cased when the character
      before it is not a letter, lower-cased otherwise. */
  function Title(s: string): (r: string)
    ensures |r| == |s|
  {
    TitleAfter(s, false)
  }

  function TitleAfter(s: string, afterLetter: bool): (r: string)
    ensures |r| == |s|
    ensures forall i :: 0 <= i < |s| ==> (IsLetter(r[i]) <==> IsLetter(s[i]))
    ensures forall i :: 0 <= i < |s| ==> (IsDigit(r[i]) <==> IsDigit(s[i]))
    ensures forall i :: 0 <= i < |s| ==> (r[i] == '_' <==> s[i] == '_')
  {
    if s == [] then []
    else [if afterLetter then Lower(s[0]) else Upper(s[0])] + TitleAfter(s[1..], IsLetter(s[0]))
  }

  /** The title-cased form of a non-empty run of lower-case letters is the
      run with its first letter capitalised. */
  lemma TitleOfLowerWord(w: string)
    requires |w| > 0 && AllLower(w)
    ensures Title(w) == [Upper(w[0])] + w[1..]
  {
    TitleAfterLetterLower(w[1..]);
  }

  lemma {:induction false} TitleAfterLetterLower(w: string)
    requires AllLower(w)
    ensures TitleAfter(w, true) == w
  {
    if w != [] {
      TitleAfterLetterLower(w[1..]);
    }
  }

  // ---------------------------------------------------------------------
  // str.split(sep) and sep.join(parts)
  // ---------------------------------------------------------------------

  /** str.split(d) with a one-character separator: never empty; consecutive
      separators give empty parts. */
  function Split(s: string, d: char): (r: seq<string>)
    ensures |r| >= 1
    ensures forall i :: 0 <= i < |r| ==> d !in r[i]
  {
    if s == [] then [[]]
    else
      var rest := Split(s[1..], d);
      if s[0] == d then [[]] + rest else [[s[0]] + rest[0]] + rest[1..]
  }

  /** d.join(parts) */
  function Join(parts: seq<string>, d: char): string {
    if |parts| == 0 then []
    else if |parts| == 1 then parts[0]
    else parts[0] + [d] + Join(parts[1..], d)
  }

  predicate Free(parts: seq<string>, d: char) {
    forall i :: 0 <= i < |parts| ==> d !in parts[i]
  }

  lemma {:induction false} SplitFreePrefix(w: string, t: string, d: char)
    requires d !in w
    ensures Split(w + t, d) == [w + Split(t, d)[0]] + Split(t, d)[1..]
  {
    if w == [] {
      var st := Split(t, d);
      assert w + t == t;
      assert w + st[0] == st[0];
      assert st == [st[0]] + st[1..];
    } else {
      var st := Split(t, d);
      assert (w + t)[1..] == w[1..] + t;
      assert (w + t)[0] == w[0] != d;
      SplitFreePrefix(w[1..], t, d);
      var rest := Split(w[1..] + t, d);
      assert rest[0] == w[1..] + st[0];
      assert rest[1..] == st[1..];
      assert Split(w + t, d) == [[w[0]] + rest[0]] + rest[1..];
      assert [w[0]] + (w[1..] + st[0]) == w + st[0];
    }
  }

  /** Splitting at a separator splits each side apart. */
  lemma {:induction false} SplitAppend(a: string, b: string, d: char)
    ensures Split(a + [d] + b, d) == Split(a, d) + Split(b, d)
  {
    if a == [] {
      SplitCons(d, b, d);
      assert a + [d] + b == [d] + b;
    } else {
      SplitAppend(a[1..], b, d);
      SplitAppendStep(a, b, d);
    }
  }

  lemma SplitAppendStep(a: string, b: string, d: char)
    requires a != []
    requires Split(a[1..] + [d] + b, d) == Split(a[1..], d) + Split(b, d)
    ensures Split(a + [d] + b, d) == Split(a, d) + Split(b, d)
  {
    var a0, a1 := a[0], a[1..];
    var rest, sb := Split(a1, d), Split(b, d);
    assert a + [d] + b == [a0] + (a1 + [d] + b);
    SplitCons(a0, a1 + [d] + b, d);
    ConsAppend(a, []);
    SplitCons(a0, a1, d);
    if a0 == d {
      AppendAssoc([[]], rest, sb);
    } else {
      HeadJoined([a0], rest, sb);
    }
  }

  lemma SplitCons(c: char, s: string, d: char)
    ensures var rest := Split(s, d);
      Split([c] + s, d) == if c == d then [[]] + rest else [[c] + rest[0]] + rest[1..]
  {
    assert ([c] + s)[1..] == s;
  }

  lemma HeadJoined<T>(h: seq<T>, rest: seq<seq<T>>, more: seq<seq<T>>)
    requires |rest| >= 1
    ensures [h + (rest + more)[0]] + (rest + more)[1..] == [h + rest[0]] + rest[1..] + more
  {
    assert (rest + more)[0] == rest[0];
    assert (rest + more)[1..] == rest[1..] + more;
  }

  /** Splitting a join gives back the parts, provided none of them contains
      the separator. */
  lemma {:induction false} SplitJoin(parts: seq<string>, d: char)
    requires |parts| >= 1 && Free(parts, d)
    ensures Split(Join(parts, d), d) == parts
  {
    if |parts| == 1 {
      SplitFreePrefix(parts[0], [], d);
      assert parts[0] + [] == parts[0];
      assert Split([], d) == [[]];
    } else {
      var rest := Join(parts[1..], d);
      SplitJoin(parts[1..], d);
      assert parts[0] + [d] + rest == parts[0] + ([d] + rest);
      SplitFreePrefix(parts[0], [d] + rest, d);
      assert ([d] + rest)[0] == d;
      assert ([d] + rest)[1..] == rest;
      assert Split([d] + rest, d) == [[]] + parts[1..];
      assert parts[0] + [] == parts[0];
      assert parts == [parts[0]] + parts[1..];
    }
  }

  /** Joining a split gives back the string. */
  lemma {:induction false} JoinSplit(s: string, d: char)
    ensures Join(Split(s, d), d) == s
  {
    if s != [] {
      var rest := Split(s[1..], d);
      JoinSplit(s[1..], d);
      if s[0] == d {
        assert Split(s, d) == [[]] + rest;
        assert ([[]] + rest)[1..] == rest;
      } else {
        var r := Split(s, d);
        assert r == [[s[0]] + rest[0]] + rest[1..];
        if |rest| == 1 {
          assert r == [[s[0]] + rest[0]];
        } else {
          assert r[1..] == rest[1..];
          assert Join(rest, d) == rest[0] + [d] + Join(rest[1..], d);
        }
      }
    }
  }

  // ---------------------------------------------------------------------
  // str.strip() and str.split() with no arguments
  // ---------------------------------------------------------------------

  function TrimLeft(s: string): (r: string)
    ensures |r| <= |s| && r == s[|s| - |r|..]
    ensures r == [] || !IsSpace(r[0])
    ensures forall i :: 0 <= i < |s| - |r| ==> IsSpace(s[i])
  {
    if s == [] || !IsSpace(s[0]) then s else TrimLeft(s[1..])
  }

  function TrimRight(s: string): (r: string)
    ensures |r| <= |s| && r == s[..|r|]
    ensures r == [] || !IsSpace(r[|r| - 1])
    ensures forall i :: |r| <= i < |s| ==> IsSpace(s[i])
  {
    if s == [] || !IsSpace(s[|s| - 1]) then s else TrimRight(s[..|s| - 1])
  }

  predicate Stripped(s: string) {
    s == [] || (!IsSpace(s[0]) && !IsSpace(s[|s| - 1]))
  }

  /** Nothing but whitespace. */
  predicate Blank(s: string) { forall k :: 0 <= k < |s| ==> IsSpace(s[k]) }

  /** r sits in s at i with only whitespace around it. */
  predicate Framed(s: string, r: string, i: int) {
    0 <= i <= |s| - |r| && r == s[i..i + |r|] && Blank(s[..i]) && Blank(s[i + |r|..])
  }

  /** str.strip(): the string without its leading and trailing whitespace. */
  function Strip(s: string): (r: string)
    ensures Stripped(r)
    ensures forall c :: c in r ==> c in s
    ensures Stripped(s) ==> r == s
  {
    var t := TrimLeft(s);
    var r := TrimRight(t);
    StripFramed(s, t, r);
    StripStripped(s, t, r);
    r
  }

  /** What strip() removes: the result sits in s with nothing but
      whitespace before and after it, and it is empty exactly when s is
      blank. */
  lemma StripMeaning(s: string)
    ensures exists i :: Framed(s, Strip(s), i)
    ensures Strip(s) == [] <==> Blank(s)
  {
    var t := TrimLeft(s);
    StripFramed(s, t, TrimRight(t));
    StripBlank(s, t, TrimRight(t));
    assert Framed(s, Strip(s), |s| - |t|);
  }

  lemma StripFramed(s: string, t: string, r: string)
    requires t == TrimLeft(s) && r == TrimRight(t)
    ensures Framed(s, r, |s| - |t|)
  {
    BlankBefore(s, t);
    BlankAfter(t, r);
    FramedBy(s, t, r);
  }

  /** r at the front of the suffix t of s, with blanks around both. */
  lemma FramedBy(s: string, t: string, r: string)
    requires |t| <= |s| && t == s[|s| - |t|..] && |r| <= |t| && r == t[..|r|]
    requires Blank(s[..|s| - |t|]) && Blank(t[|r|..])
    ensures Framed(s, r, |s| - |t|)
  {
    SliceOfSlice(s, |s| - |t|, |r|);
  }

  lemma BlankBefore(s: string, t: string)
    requires t == TrimLeft(s)
    ensures Blank(s[..|s| - |t|])
  {
    var p := s[..|s| - |t|];
    forall k | 0 <= k < |p| ensures IsSpace(p[k]) {
      assert p[k] == s[k];
    }
  }

  lemma BlankAfter(t: string, r: string)
    requires r == TrimRight(t)
    ensures Blank(t[|r|..])
  {
    var q := t[|r|..];
    forall k | 0 <= k < |q| ensures IsSpace(q[k]) {
      assert q[k] == t[|r| + k];
    }
  }

  lemma StripBlank(s: string, t: string, r: string)
    requires t == TrimLeft(s) && r == TrimRight(t)
    ensures r == [] <==> Blank(s)
  {
    if r != [] {
      assert r[0] == t[0] == s[|s| - |t|];
    } else {
      assert t == [];
    }
  }

  lemma StripStripped(s: string, t: string, r: string)
    requires t == TrimLeft(s) && r == TrimRight(t)
    ensures Stripped(s) ==> r == s
  {
  }

  lemma ConsAppend<T>(x: seq<T>, y: seq<T>)
    requires x != []
    ensures x == [x[0]] + x[1..]
    ensures x + y == [x[0]] + (x[1..] + y)
  {
  }

  lemma AppendAssoc<T>(a: seq<T>, b: seq<T>, c: seq<T>)
    ensures a + (b + c) == (a + b) + c
  {
  }

  lemma SliceOfSlice<T>(s: seq<T>, i: nat, j: nat)
    requires i <= |s| && j <= |s| - i
    ensures s[i..][..j] == s[i..i + j]
    ensures s[i..][j..] == s[i + j..]
  {
  }

  /** The longest prefix free of whitespace. */
  function TakeWord(s: string): (w: string)
    ensures |w| <= |s| && w == s[..|w|]
    ensures forall i :: 0 <= i < |w| ==> !IsSpace(w[i])
    ensures |w| < |s| ==> IsSpace(s[|w|])
  {
    if s == [] || IsSpace(s[0]) then [] else [s[0]] + TakeWord(s[1..])
  }

  predicate IsWord(w: string) {
    |w| > 0 && forall i :: 0 <= i < |w| ==> !IsSpace(w[i])
  }

  /** str.split() with no separator: the maximal runs of non-whitespace. */
  function Words(s: string): (ws: seq<string>)
    ensures forall i :: 0 <= i < |ws| ==> IsWord(ws[i])
    decreases |s|
  {
    var t := TrimLeft(s);
    if t == [] then []
    else
      var w := TakeWord(t);
      [w] + Words(t[|w|..])
  }

  lemma TakeWordOfWord(w: string, t: string)
    requires IsWord(w)
    requires t == [] || IsSpace(t[0])
    ensures TakeWord(w + t) == w
    decreases |w|
  {
    if |w| > 1 {
      assert (w + t)[1..] == w[1..] + t;
      TakeWordOfWord(w[1..], t);
    } else {
      assert (w + t)[1..] == t;
    }
  }

  lemma WordsOfWord(w: string)
    requires IsWord(w)
    ensures Words(w) == [w]
  {
    TakeWordOfWord(w, []);
    assert w + [] == w;
    assert w[|w|..] == [];
  }

  lemma WordsCons(w: string, rest: string)
    requires IsWord(w)
    ensures Words(w + [' '] + rest) == [w] + Words(rest)
  {
    var s := w + [' '] + rest;
    assert s == w + ([' '] + rest);
    assert TrimLeft(s) == s;
    TakeWordOfWord(w, [' '] + rest);
    assert s[|w|..] == [' '] + rest;
    assert TrimLeft([' '] + rest) == TrimLeft(rest);
  }

  /** Words of a space-joined list of words are the words themselves. */
  lemma {:induction false} WordsOfJoin(ws: seq<string>)
    requires forall i :: 0 <= i < |ws| ==> IsWord(ws[i])
    ensures Words(Join(ws, ' ')) == ws
  {
    if |ws| == 1 {
      WordsOfWord(ws[0]);
    } else if |ws| > 1 {
      WordsOfTail(ws);
      WordsOfJoin(ws[1..]);
      WordsOfJoinStep(ws);
    }
  }

  lemma WordsOfTail(ws: seq<string>)
    requires |ws| > 0
    requires forall i :: 0 <= i < |ws| ==> IsWord(ws[i])
    ensures forall i :: 0 <= i < |ws[1..]| ==> IsWord(ws[1..][i])
  {
  }

  lemma WordsOfJoinStep(ws: seq<string>)
    requires |ws| > 1 && IsWord(ws[0])
    requires Words(Join(ws[1..], ' ')) == ws[1..]
    ensures Words(Join(ws, ' ')) == ws
  {
    var w, rest := ws[0], ws[1..];
    JoinCons(ws, ' ');
    ConsTail(ws);
    WordsCons(w, Join(rest, ' '));
  }

  lemma JoinCons(ws: seq<string>, d: char)
    requires |ws| > 1
    ensures Join(ws, d) == ws[0] + [d] + Join(ws[1..], d)
  {
  }

  lemma ConsTail<T>(s: seq<T>)
    requires |s| > 0
    ensures [s[0]] + s[1..] == s
  {
  }

  /** The decimal numeral of a natural number, without leading zeros. */
  function NatToString(n: nat): (r: string)
    ensures |r| > 0 && AllDigits(r)
    ensures (|r| > 1 ==> r[0] != '0')
  {
    if n < 10 then [DigitChar(n)] else NatToString(n / 10) + [DigitChar(n % 10)]
  }

  function DigitChar(d: nat): (c: char)
    requires d < 10
    ensures IsDigit(c)
  {
    ('0' as int + d) as char
  }
}
