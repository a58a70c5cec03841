/** The single-rule case conversion shared by
    aquaticexotica_backend/middleware/camelcase_middleware.py and
    aquaticexotica_backend/middleware/camelsnakecase_middleware.py (the two
    files define the same four functions). */
module SimpleCase {
  import opened Text
  import opened Boundaries
  import opened Json

  /** The zero-width match (?<!^)(?=[A-Z]): a position that is not the
      start and is followed by an upper-case letter. */
  predicate BeforeUpper(p: char, c: char) { IsUpper(c) }

  /** camel_to_snake: '_' before every upper-case letter except a leading
      one, then lower-case everything. */
  function CamelToSnake(name: string): (r: string)
    ensures NoUpper(r)
    ensures |r| >= |name|
  {
    LowerStr(Mark(name, BeforeUpper))
  }

  /** snake_to_camel: the first part verbatim, every later part title-cased,
      all underscores dropped. */
  function SnakeToCamel(name: string): (r: string)
    ensures '_' !in r
    ensures var first := Split(name, '_')[0]; |first| <= |r| && r[..|first|] == first
  {
    var parts := Split(name, '_');
    parts[0] + TitledConcat(parts[1..])
  }

  /** Converting an already converted name changes nothing. */
  lemma CamelToSnakeIdempotent(name: string)
    ensures CamelToSnake(CamelToSnake(name)) == CamelToSnake(name)
  {
    var r := CamelToSnake(name);
    MarkNone(r, BeforeUpper);
    LowerStrNoUpper(r);
  }

  lemma {:induction false} SeamsBeforeUpper(parts: seq<string>)
    requires forall k :: 0 <= k < |parts| ==> LowerWord(parts[k])
    ensures Seams(parts, BeforeUpper)
  {
    if |parts| > 1 {
      SeamsBeforeUpper(parts[1..]);
    }
  }

  /** snake_case keys made of lower-case letter runs survive the trip to
      camelCase and back. */
  lemma RoundTrip(parts: seq<string>)
    requires |parts| >= 1
    requires forall k :: 0 <= k < |parts| ==> LowerWord(parts[k])
    ensures CamelToSnake(SnakeToCamel(Join(parts, '_'))) == Join(parts, '_')
  {
    var w := parts[0];
    SplitJoin(parts, '_');
    assert SnakeToCamel(Join(parts, '_')) == w + TitledConcat(parts[1..]);
    SeamsBeforeUpper(parts[1..]);
    MarkTitled(w, parts[1..], BeforeUpper);
    var u := Underscored(TitledParts(parts[1..]));
    LowerStrAppend(w, u);
    LowerStrNoUpper(w);
    LowerUnderscored(parts[1..]);
    JoinHeadTail(parts);
  }

  /** convert_keys_to_snake_case */
  function ConvertKeysToSnakeCase(data: Json): (r: Json)
    ensures IsScalar(data) ==> r == data
    ensures data.List? ==> r.List? && |r.items| == |data.items|
    ensures data.Dict? ==> r.Dict? && DistinctKeys(r.members)
    ensures data.Dict? ==> forall k :: k in KeySet(r.members) ==> NoUpper(k)
  {
    MapKeys(data, CamelToSnake)
  }

  /** convert_keys_to_camel_case */
  function ConvertKeysToCamelCase(data: Json): (r: Json)
    ensures IsScalar(data) ==> r == data
    ensures data.List? ==> r.List? && |r.items| == |data.items|
    ensures data.Dict? ==> r.Dict? && DistinctKeys(r.members)
    ensures data.Dict? ==> forall k :: k in KeySet(r.members) ==> '_' !in k
  {
    MapKeys(data, SnakeToCamel)
  }

  lemma MarkErId()
    ensures Mark("erID", BeforeUpper) == "er_I_D"
  {
  }

  lemma MarkUserId()
    ensures Mark("userID", BeforeUpper) == "user_I_D"
  {
    MarkErId();
    MarkAppend("us", "erID", BeforeUpper);
    assert "us" + "erID" == "userID";
    assert Mark("us", BeforeUpper) == "us";
    assert "us" + "" + "er_I_D" == "user_I_D";
  }

  lemma LowerUserId()
    ensures LowerStr("user_I_D") == "user_i_d"
  {
    LowerCapital("_", 'D', "");
    LowerCapital("user_", 'I', "_D");
    assert "user_I_D" == "user_" + ['I'] + "_D";
    assert "_D" == "_" + ['D'] + "";
    assert Lower('I') == 'i' && Lower('D') == 'd';
    assert "user_" + ['i'] + ("_" + ['d'] + "") == "user_i_d";
  }

  /** "userID" becomes "user_i_d": every capital is split off. */
  lemma ExampleUserId()
    ensures CamelToSnake("userID") == "user_i_d"
  {
    MarkUserId();
    LowerUserId();
  }

  /** A leading capital gets no underscore: "Name" becomes "name". */
  lemma ExampleName()
    ensures CamelToSnake("Name") == "name"
  {
  }

  /** A word with no capital after its first character is left unmarked. */
  lemma MarkNoInnerCapital(s: string)
    requires forall i :: 0 < i < |s| ==> !IsUpper(s[i])
    ensures Mark(s, BeforeUpper) == s
  {
    MarkNone(s, BeforeUpper);
  }

  /** Two unmarked words joined at a capital get one underscore. */
  lemma MarkCamelPair(a: string, c: string)
    requires a != [] && c != [] && IsUpper(c[0])
    requires forall i :: 0 < i < |a| ==> !IsUpper(a[i])
    requires forall i :: 0 < i < |c| ==> !IsUpper(c[i])
    ensures Mark(a + c, BeforeUpper) == a + "_" + c
  {
    MarkNoInnerCapital(a);
    MarkNoInnerCapital(c);
    MarkAppend(a, c, BeforeUpper);
  }

  lemma MarkAddressLine()
    ensures Mark("addressLine1", BeforeUpper) == "address_Line1"
  {
    MarkCamelPair("address", "Line1");
    assert "address" + "Line1" == "addressLine1";
    assert "address" + "_" + "Line1" == "address_Line1";
  }

  lemma LowerAddressLine()
    ensures LowerStr("address_Line1") == "address_line1"
  {
    LowerCapital("address_", 'L', "ine1");
    LowerStrNoUpper("ine1");
    assert "address_Line1" == "address_" + ['L'] + "ine1";
    assert Lower('L') == 'l';
    assert "address_" + ['l'] + "ine1" == "address_line1";
  }

  /** Digits are never split off: "addressLine1" becomes "address_line1". */
  lemma ExampleAddressLine()
    ensures CamelToSnake("addressLine1") == "address_line1"
  {
    MarkAddressLine();
    LowerAddressLine();
  }
}
