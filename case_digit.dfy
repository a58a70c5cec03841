/** The digit-aware case conversion of
    aquaticexotica_backend/aquaticexotica_backend/middleware/camelsnakecase_middleware.py:
    camel_to_snake applies three substitutions in turn (lower-case letter or
    digit before a capital; letter before a digit; digit before a letter)
    and then lower-cases; snake_to_camel leaves all-digit parts as they are. */
module DigitCase {
  import opened Text
  import opened Boundaries
  import opened Json
  import SimpleCase

  /** (?<=[a-z0-9])([A-Z]) */
  predicate LowerOrDigitBeforeUpper(p: char, c: char) { (IsLower(p) || IsDigit(p)) && IsUpper(c) }
  /** (?<=[a-zA-Z])(?=[0-9]) */
  predicate LetterBeforeDigit(p: char, c: char) { IsLetter(p) && IsDigit(c) }
  /** (?<=[0-9])(?=[a-zA-Z]) */
  predicate DigitBeforeLetter(p: char, c: char) { IsDigit(p) && IsLetter(c) }

  /** The three substitutions, each applied to the result of the one before. */
  function Marked(name: string): string {
    Mark(Mark(Mark(name, LowerOrDigitBeforeUpper), LetterBeforeDigit), DigitBeforeLetter)
  }

  /** camel_to_snake */
  function CamelToSnake(name: string): (r: string)
    ensures NoUpper(r)
    ensures |r| >= |name|
  {
    LowerStr(Marked(name))
  }

  /** Lower-casing keeps letters letters and digits digits, so it keeps a
      string free of letter/digit seams. */
  lemma {:induction false} LowerKeepsSeams(s: string)
    requires NoBoundary(s, LetterBeforeDigit) && NoBoundary(s, DigitBeforeLetter)
    ensures NoBoundary(LowerStr(s), LetterBeforeDigit) && NoBoundary(LowerStr(s), DigitBeforeLetter)
  {
    var r := LowerStr(s);
    forall i | 0 < i < |r|
      ensures !LetterBeforeDigit(r[i - 1], r[i]) && !DigitBeforeLetter(r[i - 1], r[i])
    {
      assert r[i - 1] == Lower(s[i - 1]) && r[i] == Lower(s[i]);
      assert !LetterBeforeDigit(s[i - 1], s[i]) && !DigitBeforeLetter(s[i - 1], s[i]);
    }
  }

  /** After the three substitutions no letter touches a digit. */
  lemma MarkedSeparates(name: string)
    ensures NoBoundary(Marked(name), LetterBeforeDigit)
    ensures NoBoundary(Marked(name), DigitBeforeLetter)
  {
    var m1 := Mark(name, LowerOrDigitBeforeUpper);
    MarkSeparates(m1, LetterBeforeDigit, LetterBeforeDigit);
    var m2 := Mark(m1, LetterBeforeDigit);
    MarkKeeps(m2, DigitBeforeLetter, LetterBeforeDigit);
    MarkSeparates(m2, DigitBeforeLetter, DigitBeforeLetter);
  }

  /** Converting an already converted name changes nothing. */
  lemma CamelToSnakeIdempotent(name: string)
    ensures CamelToSnake(CamelToSnake(name)) == CamelToSnake(name)
  {
    var r := CamelToSnake(name);
    MarkedSeparates(name);
    LowerKeepsSeams(Marked(name));
    MarkNone(r, LowerOrDigitBeforeUpper);
    MarkNone(r, LetterBeforeDigit);
    MarkNone(r, DigitBeforeLetter);
    LowerStrNoUpper(r);
  }

  /** ''.join(part if part.isdigit() else part.title() for part in parts) */
  function CamelParts(parts: seq<string>): (r: string)
    ensures Free(parts, '_') ==> '_' !in r
  {
    if parts == [] then []
    else (if IsDigitStr(parts[0]) then parts[0] else Title(parts[0])) + CamelParts(parts[1..])
  }

  /** snake_to_camel */
  function SnakeToCamel(name: string): (r: string)
    ensures '_' !in r
    ensures var first := Split(name, '_')[0]; |first| <= |r| && r[..|first|] == first
  {
    var parts := Split(name, '_');
    parts[0] + CamelParts(parts[1..])
  }

  lemma {:induction false} TitleOfDigits(s: string, afterLetter: bool)
    requires AllDigits(s)
    ensures TitleAfter(s, afterLetter) == s
  {
    if s != [] {
      TitleOfDigits(s[1..], false);
    }
  }

  lemma {:induction false} CamelPartsAgree(parts: seq<string>)
    ensures CamelParts(parts) == TitledConcat(parts)
  {
    if parts != [] {
      CamelPartsAgree(parts[1..]);
      if IsDigitStr(parts[0]) {
        TitleOfDigits(parts[0], false);
      }
    }
  }

  /** Keeping all-digit parts verbatim changes nothing: title-casing a run
      of digits leaves it as it is, so both middleware variants turn
      snake_case into the same camelCase. */
  lemma SnakeToCamelAgrees(name: string)
    ensures SnakeToCamel(name) == SimpleCase.SnakeToCamel(name)
  {
    CamelPartsAgree(Split(name, '_')[1..]);
  }

  // ---------------------------------------------------------------------
  // Round trip
  // ---------------------------------------------------------------------

  /** Every part except the last has at least two letters, so its
      title-cased form ends in a lower-case letter. */
  predicate InnerPartsLong(parts: seq<string>) {
    forall k :: 0 <= k < |parts| - 1 ==> |parts[k]| >= 2
  }

  lemma {:induction false} SeamsLowerBeforeUpper(parts: seq<string>)
    requires forall k :: 0 <= k < |parts| ==> LowerWord(parts[k])
    requires InnerPartsLong(parts)
    ensures Seams(parts, LowerOrDigitBeforeUpper)
  {
    if |parts| > 1 {
      SeamsLowerBeforeUpper(parts[1..]);
      assert |parts[0]| >= 2;
    }
  }

  predicate NoDigit(s: string) { forall i :: 0 <= i < |s| ==> !IsDigit(s[i]) }

  lemma {:induction false} UnderscoredNoDigit(parts: seq<string>)
    requires forall k :: 0 <= k < |parts| ==> LowerWord(parts[k])
    ensures NoDigit(Underscored(TitledParts(parts)))
  {
    if parts != [] {
      UnderscoredNoDigit(parts[1..]);
      var t := Title(parts[0]);
      assert NoDigit(t) by {
        forall i | 0 <= i < |t| ensures !IsDigit(t[i]) {
          assert !IsDigit(parts[0][i]);
        }
      }
      assert Underscored(TitledParts(parts)) == "_" + t + Underscored(TitledParts(parts[1..]));
    }
  }

  lemma NoDigitNoSeams(s: string)
    requires NoDigit(s)
    ensures Mark(Mark(s, LetterBeforeDigit), DigitBeforeLetter) == s
  {
    MarkNone(s, LetterBeforeDigit);
    MarkNone(s, DigitBeforeLetter);
  }

  /** The three substitutions put back exactly one '_' before each
      title-cased part. */
  lemma MarkedTitled(w: string, parts: seq<string>)
    requires LowerWord(w)
    requires forall k :: 0 <= k < |parts| ==> LowerWord(parts[k])
    requires InnerPartsLong(parts)
    ensures Marked(w + TitledConcat(parts)) == w + Underscored(TitledParts(parts))
  {
    SeamsLowerBeforeUpper(parts);
    MarkTitled(w, parts, LowerOrDigitBeforeUpper);
    var u := Underscored(TitledParts(parts));
    UnderscoredNoDigit(parts);
    assert NoDigit(w + u);
    NoDigitNoSeams(w + u);
  }

  /** snake_case keys made of lower-case letter runs, each but the last at
      least two letters long, survive the trip to camelCase and back. */
  lemma SnakeToCamelOfJoin(parts: seq<string>)
    requires |parts| >= 1 && Free(parts, '_')
    ensures SnakeToCamel(Join(parts, '_')) == parts[0] + TitledConcat(parts[1..])
  {
    SnakeToCamelAgrees(Join(parts, '_'));
    SplitJoin(parts, '_');
  }

  lemma LowerOfUnderscored(parts: seq<string>)
    requires |parts| >= 1
    requires forall k :: 0 <= k < |parts| ==> LowerWord(parts[k])
    ensures LowerStr(parts[0] + Underscored(TitledParts(parts[1..]))) == Join(parts, '_')
  {
    var w := parts[0];
    var u := Underscored(TitledParts(parts[1..]));
    LowerStrAppend(w, u);
    LowerStrNoUpper(w);
    LowerUnderscored(parts[1..]);
    JoinHeadTail(parts);
  }

  lemma RoundTrip(parts: seq<string>)
    requires |parts| >= 1
    requires forall k :: 0 <= k < |parts| ==> LowerWord(parts[k])
    requires InnerPartsLong(parts[1..])
    ensures CamelToSnake(SnakeToCamel(Join(parts, '_'))) == Join(parts, '_')
  {
    assert Free(parts, '_') by {
      forall k | 0 <= k < |parts| ensures '_' !in parts[k] {
        assert LowerWord(parts[k]);
      }
    }
    SnakeToCamelOfJoin(parts);
    MarkedTitled(parts[0], parts[1..]);
    LowerOfUnderscored(parts);
  }

  lemma SplitABC()
    ensures Split("a_b_c", '_') == ["a", "b", "c"]
  {
    SplitJoin(["a", "b", "c"], '_');
    assert Join(["a", "b", "c"], '_') == "a_b_c";
  }

  lemma MarkABCUpper()
    ensures Mark("aBC", LowerOrDigitBeforeUpper) == "a_BC"
  {
  }

  lemma MarkABC()
    ensures Marked("aBC") == "a_BC"
  {
    MarkABCUpper();
    MarkedWithoutDigits("aBC", "a_BC");
  }

  /** The round trip does need the length condition: a one-letter inner
      part is merged with the part after it. */
  lemma CamelABC()
    ensures SnakeToCamel("a_b_c") == "aBC"
  {
    SplitABC();
    var parts := ["a", "b", "c"];
    assert parts[1..] == ["b", "c"];
    assert CamelParts(["b", "c"]) == "BC";
  }

  lemma RoundTripSingleLetter()
    ensures SnakeToCamel("a_b_c") == "aBC"
    ensures CamelToSnake("aBC") == "a_bc"
  {
    CamelABC();
    MarkABC();
    LowerABC();
  }

  lemma LowerABC()
    ensures LowerStr("a_BC") == "a_bc"
  {
    LowerCapital("", 'C', "");
    LowerCapital("a_", 'B', "C");
    assert "a_BC" == "a_" + ['B'] + "C";
    assert "C" == "" + ['C'] + "";
    assert Lower('B') == 'b' && Lower('C') == 'c';
    assert "a_" + ['b'] + ("" + ['c'] + "") == "a_bc";
  }

  // ---------------------------------------------------------------------
  // Examples
  // ---------------------------------------------------------------------

  lemma MarkAddressLineUpper()
    ensures Mark("addressLine1", LowerOrDigitBeforeUpper) == "address_Line1"
  {
    MarkPair("address", "Line1", LowerOrDigitBeforeUpper);
    assert "address" + "Line1" == "addressLine1";
    assert "address" + "_" + "Line1" == "address_Line1";
  }

  lemma MarkAddressLineDigit()
    ensures Mark("address_Line1", LetterBeforeDigit) == "address_Line_1"
  {
    MarkPair("address_Line", "1", LetterBeforeDigit);
    assert "address_Line" + "1" == "address_Line1";
    assert "address_Line" + "_" + "1" == "address_Line_1";
  }

  lemma MarkAddressLineLetter()
    ensures Mark("address_Line_1", DigitBeforeLetter) == "address_Line_1"
  {
    MarkNone("address_Line_1", DigitBeforeLetter);
  }

  lemma LowerAddressLine1()
    ensures LowerStr("address_Line_1") == "address_line_1"
  {
    AddressLine1Parts();
    LowerCapital("address_", 'L', "ine_1");
    LowerStrNoUpper("ine_1");
  }

  /** "address_Line_1" around its one capital, before and after lowering. */
  lemma AddressLine1Parts()
    ensures "address_Line_1" == "address_" + ['L'] + "ine_1"
    ensures "address_" + ['l'] + "ine_1" == "address_line_1"
    ensures Lower('L') == 'l'
  {
  }

  /** Digits are split off: "addressLine1" becomes "address_line_1". */
  lemma ExampleAddressLine1()
    ensures CamelToSnake("addressLine1") == "address_line_1"
  {
    MarkAddressLineUpper();
    MarkAddressLineDigit();
    MarkAddressLineLetter();
    LowerAddressLine1();
  }

  lemma MarkUserIdUpper()
    ensures Mark("userID", LowerOrDigitBeforeUpper) == "user_ID"
  {
    MarkPair("user", "ID", LowerOrDigitBeforeUpper);
    assert "user" + "ID" == "userID";
    assert "user" + "_" + "ID" == "user_ID";
  }

  /** When the first substitution leaves no digit, the other two do nothing. */
  lemma MarkedWithoutDigits(s: string, m: string)
    requires Mark(s, LowerOrDigitBeforeUpper) == m && NoDigit(m)
    ensures Marked(s) == m
  {
    NoDigitNoSeams(m);
  }

  lemma MarkUserId()
    ensures Marked("userID") == "user_ID"
  {
    MarkUserIdUpper();
    MarkedWithoutDigits("userID", "user_ID");
  }

  /** Unlike the single-rule variant, a run of capitals stays together:
      "userID" becomes "user_id". */
  lemma ExampleUserId()
    ensures CamelToSnake("userID") == "user_id"
  {
    MarkUserId();
    LowerCapital("", 'D', "");
    LowerCapital("user_", 'I', "D");
    assert "user_ID" == "user_" + ['I'] + "D";
    assert "D" == "" + ['D'] + "";
    assert Lower('I') == 'i' && Lower('D') == 'd';
    assert "user_" + ['i'] + ("" + ['d'] + "") == "user_id";
  }

  /** convert_keys_to_snake_case */
  function ConvertKeysToSnakeCase(data: Json): (r: Json)
    ensures IsScalar(data) ==> r == data
    ensures data.List? ==> r.List? && |r.items| == |data.items|
    ensures data.Dict? ==> r.Dict? && DistinctKeys(r.members)
    ensures data.Dict? ==> forall k :: k in KeySet(r.members) ==> NoUpper(k)
  {
    MapKeys(data, CamelToSnake)
  }

  /** convert_keys_to_camel_case */
  function ConvertKeysToCamelCase(data: Json): (r: Json)
    ensures IsScalar(data) ==> r == data
    ensures data.List? ==> r.List? && |r.items| == |data.items|
    ensures data.Dict? ==> r.Dict? && DistinctKeys(r.members)
    ensures data.Dict? ==> forall k :: k in KeySet(r.members) ==> '_' !in k
  {
    MapKeys(data, SnakeToCamel)
  }
}
