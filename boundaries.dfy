/** What the key-conversion middleware does with regular expressions,
    stated on characters: a substitution of '_' for a zero-width match of
    (?<=A)(?=B) puts an underscore between every neighbouring pair of
    characters that the boundary predicate accepts; and the camelCase join
    of snake_case parts. Shared by both middleware variants. */
module Boundaries {
  import opened Text

  /** s with '_' inserted between s[i-1] and s[i] whenever b(s[i-1], s[i]). */
  function Mark(s: string, b: (char, char) -> bool): (r: string)
    ensures |r| >= |s|
    ensures s == [] <==> r == []
    ensures s != [] ==> r[0] == s[0] && r[|r| - 1] == s[|s| - 1]
  {
    if |s| <= 1 then s
    else [s[0]] + (if b(s[0], s[1]) then "_" else "") + Mark(s[1..], b)
  }

  /** No neighbouring pair of s is accepted by b. */
  predicate NoBoundary(s: string, b: (char, char) -> bool) {
    forall i :: 0 < i < |s| ==> !b(s[i - 1], s[i])
  }

  lemma {:induction false} MarkNone(s: string, b: (char, char) -> bool)
    requires NoBoundary(s, b)
    ensures Mark(s, b) == s
  {
    if |s| > 1 {
      MarkNone(s[1..], b);
    }
  }

  /** The separator Mark puts between p and c. */
  function Sep(p: char, c: char, b: (char, char) -> bool): string {
    if b(p, c) then "_" else ""
  }

  lemma MarkStep(s: string, b: (char, char) -> bool)
    requires |s| >= 2
    ensures Mark(s, b) == [s[0]] + Sep(s[0], s[1], b) + Mark(s[1..], b)
  {
  }

  /** Marking is local: marking a concatenation marks both halves and the
      seam between them. */
  lemma {:induction false} MarkAppend(a: string, c: string, b: (char, char) -> bool)
    requires a != [] && c != []
    ensures Mark(a + c, b) == Mark(a, b) + (if b(a[|a| - 1], c[0]) then "_" else "") + Mark(c, b)
  {
    if |a| == 1 {
      MarkAppendOne(a, c, b);
    } else {
      MarkAppend(a[1..], c, b);
      MarkAppendStep(a, c, b);
    }
  }

  lemma MarkAppendOne(a: string, c: string, b: (char, char) -> bool)
    requires |a| == 1 && c != []
    ensures Mark(a + c, b) == Mark(a, b) + Sep(a[0], c[0], b) + Mark(c, b)
  {
    TailOfAppend(a, c);
    MarkStep(a + c, b);
    MarkShort(a, b);
  }

  lemma MarkShort(s: string, b: (char, char) -> bool)
    requires |s| <= 1
    ensures Mark(s, b) == s
  {
  }

  lemma MarkAppendStep(a: string, c: string, b: (char, char) -> bool)
    requires |a| >= 2 && c != []
    requires Mark(a[1..] + c, b) == Mark(a[1..], b) + Sep(a[|a| - 1], c[0], b) + Mark(c, b)
    ensures Mark(a + c, b) == Mark(a, b) + Sep(a[|a| - 1], c[0], b) + Mark(c, b)
  {
    TailOfAppend(a, c);
    MarkStep(a + c, b);
    MarkStep(a, b);
    Regroup([a[0]], Sep(a[0], a[1], b), Mark(a[1..], b), Sep(a[|a| - 1], c[0], b), Mark(c, b));
  }

  lemma TailOfAppend(a: string, c: string)
    requires |a| >= 1
    ensures (a + c)[0] == a[0] && (a + c)[1..] == a[1..] + c
    ensures |a| >= 2 ==> (a + c)[1] == a[1]
    ensures |a| == 1 && c != [] ==> (a + c)[1] == c[0] && a[1..] + c == c && a == [a[0]]
  {
  }

  lemma Regroup(h: string, s0: string, x: string, sep: string, mc: string)
    ensures h + s0 + (x + sep + mc) == h + s0 + x + sep + mc
  {
  }

  /** Two unmarked strings joined at a pair that b accepts get exactly one
      underscore between them. */
  lemma MarkPair(a: string, c: string, b: (char, char) -> bool)
    requires a != [] && c != []
    requires NoBoundary(a, b) && NoBoundary(c, b) && b(a[|a| - 1], c[0])
    ensures Mark(a + c, b) == a + "_" + c
  {
    MarkAppend(a, c, b);
    MarkNone(a, b);
    MarkNone(c, b);
  }

  /** Marking with b leaves no pair accepted by b' when b' never accepts a
      pair that has an underscore on either side and marking with b already
      separated every pair that b' accepts. */
  lemma {:induction false} MarkSeparates(s: string, b: (char, char) -> bool, b': (char, char) -> bool)
    requires forall c :: !b'('_', c) && !b'(c, '_')
    requires forall p, c :: b'(p, c) ==> b(p, c)
    ensures NoBoundary(Mark(s, b), b')
  {
    if |s| > 1 {
      MarkSeparates(s[1..], b, b');
      var tail := Mark(s[1..], b);
      assert tail[0] == s[1];
    }
  }

  /** Marking keeps the property "no pair accepted by b'" when b' never
      accepts a pair with an underscore on either side. */
  lemma {:induction false} MarkKeeps(s: string, b: (char, char) -> bool, b': (char, char) -> bool)
    requires forall c :: !b'('_', c) && !b'(c, '_')
    requires NoBoundary(s, b')
    ensures NoBoundary(Mark(s, b), b')
  {
    if |s| > 1 {
      MarkKeeps(s[1..], b, b');
      var tail := Mark(s[1..], b);
      assert tail[0] == s[1];
    }
  }

  // ---------------------------------------------------------------------
  // camelCase joins of snake_case parts
  // ---------------------------------------------------------------------

  /** ''.join(part.title() for part in parts) */
  function TitledConcat(parts: seq<string>): (r: string)
    ensures Free(parts, '_') ==> '_' !in r
  {
    if parts == [] then [] else Title(parts[0]) + TitledConcat(parts[1..])
  }

  /** The tail of '_'.join after its first part: '_' before each part. */
  function Underscored(parts: seq<string>): string {
    if parts == [] then [] else "_" + parts[0] + Underscored(parts[1..])
  }

  lemma {:induction false} JoinHeadTail(parts: seq<string>)
    requires |parts| >= 1
    ensures Join(parts, '_') == parts[0] + Underscored(parts[1..])
  {
    if |parts| == 1 {
      assert parts[0] + [] == parts[0];
    } else {
      JoinHeadTail(parts[1..]);
      assert parts[1..][1..] == parts[2..];
    }
  }

  /** A non-empty run of lower-case ASCII letters. */
  predicate LowerWord(w: string) { |w| > 0 && AllLower(w) }

  /** The last character of a title-cased lower-case word. */
  function TitleLast(w: string): char
    requires LowerWord(w)
  {
    if |w| == 1 then Upper(w[0]) else w[|w| - 1]
  }

  lemma TitleLastIs(w: string)
    requires LowerWord(w)
    ensures Title(w)[|w| - 1] == TitleLast(w)
  {
    TitleOfLowerWord(w);
  }

  /** b separates the title-cased form of v from the title-cased next part. */
  predicate Seam(v: string, next: string, b: (char, char) -> bool) {
    LowerWord(v) && LowerWord(next) && b(TitleLast(v), Upper(next[0]))
  }

  /** b separates every pair of consecutive title-cased parts. */
  predicate Seams(parts: seq<string>, b: (char, char) -> bool) {
    |parts| <= 1 || (Seam(parts[0], parts[1], b) && Seams(parts[1..], b))
  }

  lemma TitledNoBoundary(v: string, b: (char, char) -> bool)
    requires LowerWord(v)
    requires forall p, c :: !IsUpper(c) ==> !b(p, c)
    ensures NoBoundary(Title(v), b)
  {
    var t := Title(v);
    TitleOfLowerWord(v);
    forall i | 0 < i < |t| ensures !b(t[i - 1], t[i]) {
      assert t[i] == v[i];
    }
  }

  /** The heart of the round trip: marking w followed by the title-cased
      parts puts back exactly one '_' before each part, provided that b
      separates an upper-case letter from what precedes it at each seam,
      and accepts no pair whose second character is not upper-case. */
  lemma {:induction false} MarkTitled(w: string, parts: seq<string>, b: (char, char) -> bool)
    requires w != [] && NoBoundary(w, b)
    requires forall p, c :: !IsUpper(c) ==> !b(p, c)
    requires forall k :: 0 <= k < |parts| ==> LowerWord(parts[k])
    requires parts != [] ==> LowerWord(parts[0]) && b(w[|w| - 1], Upper(parts[0][0]))
    requires Seams(parts, b)
    ensures Mark(w + TitledConcat(parts), b) == w + Underscored(TitledParts(parts))
    decreases |parts|
  {
    if parts == [] {
      MarkNone(w, b);
      assert w + [] == w;
    } else {
      var v := parts[0];
      var t := Title(v);
      TitledNoBoundary(v, b);
      TitleLastIs(v);
      if |parts| > 1 {
        assert Seam(parts[0], parts[1], b);
        assert parts[1..][0] == parts[1];
      }
      assert forall k :: 0 <= k < |parts[1..]| ==> LowerWord(parts[1..][k]);
      MarkTitled(t, parts[1..], b);
      TitleOfLowerWord(v);
      var tail := Underscored(TitledParts(parts[1..]));
      MarkSeam(w, t, TitledConcat(parts[1..]), tail, b);
      assert TitledConcat(parts) == t + TitledConcat(parts[1..]);
      assert TitledParts(parts) == [t] + TitledParts(parts[1..]);
      UnderscoredCons(t, TitledParts(parts[1..]));
    }
  }

  /** One step of MarkTitled: the seam between w and the next title-cased
      part gets exactly one '_'. */
  lemma MarkSeam(w: string, t: string, more: string, tail: string, b: (char, char) -> bool)
    requires w != [] && NoBoundary(w, b)
    requires t != [] && b(w[|w| - 1], t[0])
    requires Mark(t + more, b) == t + tail
    ensures Mark(w + (t + more), b) == w + ("_" + t + tail)
  {
    MarkAppend(w, t + more, b);
    MarkNone(w, b);
    assert (t + more)[0] == t[0];
    Associate(w, "_", t, tail);
  }

  lemma Associate(a: string, b: string, c: string, d: string)
    ensures a + b + (c + d) == a + (b + c + d)
  {
  }

  lemma UnderscoredCons(t: string, rest: seq<string>)
    ensures Underscored([t] + rest) == "_" + t + Underscored(rest)
  {
    assert ([t] + rest)[0] == t;
    assert ([t] + rest)[1..] == rest;
  }

  function TitledParts(parts: seq<string>): (r: seq<string>)
    ensures |r| == |parts|
  {
    if parts == [] then [] else [Title(parts[0])] + TitledParts(parts[1..])
  }

  /** Lower-casing the title-cased parts with their underscores gives the
      snake_case tail back. */
  lemma {:induction false} LowerUnderscored(parts: seq<string>)
    requires forall k :: 0 <= k < |parts| ==> LowerWord(parts[k])
    ensures LowerStr(Underscored(TitledParts(parts))) == Underscored(parts)
  {
    if parts != [] {
      var v := parts[0];
      TitleOfLowerWord(v);
      LowerUnderscored(parts[1..]);
      var tail := Underscored(TitledParts(parts[1..]));
      assert Underscored(TitledParts(parts)) == "_" + Title(v) + tail;
      LowerStrAppend("_" + Title(v), tail);
      LowerStrAppend("_", Title(v));
      LowerStrAppend([Upper(v[0])], v[1..]);
      LowerStrNoUpper(v[1..]);
      assert LowerStr([Upper(v[0])]) == [v[0]];
      assert [v[0]] + v[1..] == v;
    }
  }
}
