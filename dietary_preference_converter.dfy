/**
 * The column converter that stores a profile's dietary preferences as a
 * Postgres array literal such as `{VEGAN,HALAL}`, and reads them back.
 * The string operations of the Java library it uses are written out:
 * `String.split`, the quote-stripping `replaceAll`, `isBlank`.
 */
module DietaryPreferenceConverter {
  import opened Wrappers
  import opened Models

  /** `Enum::name` of a dietary preference. */
  function Name(d: DietaryPreference): string {
    match d
    case Vegetarian => "VEGETARIAN"
    case Pescatarian => "PESCATARIAN"
    case Halal => "HALAL"
    case Kosher => "KOSHER"
    case Vegan => "VEGAN"
  }

  /** `DietaryPreference.valueOf`: the constant of that exact name, if any. */
  function ValueOf(name: string): (r: Option<DietaryPreference>)
    ensures r.Some? ==> Name(r.value) == name
  {
    if name == "VEGETARIAN" then Some(Vegetarian)
    else if name == "PESCATARIAN" then Some(Pescatarian)
    else if name == "HALAL" then Some(Halal)
    else if name == "KOSHER" then Some(Kosher)
    else if name == "VEGAN" then Some(Vegan)
    else None
  }

  /** Every constant is found under its own name. */
  lemma ValueOfName(d: DietaryPreference)
    ensures ValueOf(Name(d)) == Some(d)
  {
  }

  /** `Collectors.joining(sep)`. */
  function Join(xs: seq<string>, sep: string): string
    decreases |xs|
  {
    if |xs| == 0 then ""
    else if |xs| == 1 then xs[0]
    else xs[0] + sep + Join(xs[1..], sep)
  }

  /** The names of the preferences, in order. */
  function Names(a: seq<DietaryPreference>): (r: seq<string>)
    ensures |r| == |a| && forall i :: 0 <= i < |a| ==> r[i] == Name(a[i])
  {
    seq(|a|, i requires 0 <= i < |a| => Name(a[i]))
  }

  /**
   * `convertToDatabaseColumn`: "{}" for a null or empty array, otherwise
   * the names joined by commas between braces.
   */
  function Encode(attribute: Option<seq<DietaryPreference>>): (r: string)
    ensures |r| >= 2 && r[0] == '{' && r[|r| - 1] == '}'
    ensures r == "{}" <==> attribute.None? || attribute.value == []
    ensures attribute.Some? && attribute.value != [] ==> r[1..|r| - 1] == Join(Names(attribute.value), ",")
  {
    if attribute.None? || |attribute.value| == 0 then "{}"
    else
      var body := Join(Names(attribute.value), ",");
      JoinNamesNonEmpty(attribute.value);
      var r := "{" + body + "}";
      assert r[1..|r| - 1] == body;
      r
  }

  /** A non-empty list of preference names joins to a non-empty string starting with a letter. */
  lemma {:induction false} JoinNamesNonEmpty(a: seq<DietaryPreference>)
    requires a != []
    ensures |Join(Names(a), ",")| > 0 && Join(Names(a), ",")[0] == Name(a[0])[0]
  {
    var xs := Names(a);
    if |xs| > 1 {
      assert Join(xs, ",") == xs[0] + "," + Join(xs[1..], ",");
    }
  }

  // ---------------------------------------------------------------------
  // `String.split(",")`

  /** All the comma-separated pieces of a string, empty ones included. */
  function SplitAll(s: string): (r: seq<string>)
    ensures |r| >= 1
    ensures forall i :: 0 <= i < |r| ==> ',' !in r[i]
    decreases |s|
  {
    if s == [] then [""]
    else
      var rest := SplitAll(s[1..]);
      if s[0] == ',' then [""] + rest
      else [[s[0]] + rest[0]] + rest[1..]
  }

  /** The pieces with every trailing empty piece removed. */
  function DropTrailingEmpty(xs: seq<string>): (r: seq<string>)
    ensures |r| <= |xs| && r == xs[..|r|]
    ensures r == [] || r[|r| - 1] != ""
    ensures forall i :: |r| <= i < |xs| ==> xs[i] == ""
  {
    if xs == [] then []
    else if xs[|xs| - 1] == "" then DropTrailingEmpty(xs[..|xs| - 1])
    else xs
  }

  /**
   * `s.split(",")`: a string without a comma is its own one piece;
   * otherwise the pieces, with the trailing empty ones removed (the
   * leading ones are kept).
   */
  function JavaSplit(s: string): (r: seq<string>)
    ensures forall i :: 0 <= i < |r| ==> ',' !in r[i]
    ensures ',' !in s ==> r == [s]
    ensures ',' in s ==> r == [] || r[|r| - 1] != ""
  {
    if ',' !in s then [s] else DropTrailingEmpty(SplitAll(s))
  }

  /** The pieces of a split joined with commas give the text back. */
  lemma {:induction false} JoinSplitAll(s: string)
    ensures Join(SplitAll(s), ",") == s
    decreases |s|
  {
    if s != [] {
      var rest := SplitAll(s[1..]);
      JoinSplitAll(s[1..]);
      if s[0] == ',' {
        assert ([""] + rest)[1..] == rest;
      } else {
        var r := [[s[0]] + rest[0]] + rest[1..];
        assert r[1..] == rest[1..];
        if |rest| > 1 {
          assert Join(rest, ",") == rest[0] + "," + Join(rest[1..], ",");
        }
      }
      assert [s[0]] + s[1..] == s;
    }
  }

  lemma {:induction false} SplitAllNoComma(s: string)
    requires ',' !in s
    ensures SplitAll(s) == [s]
    decreases |s|
  {
    if s != [] {
      assert ',' !in s[1..];
      SplitAllNoComma(s[1..]);
      assert [s[0]] + s[1..] == s;
    }
  }

  lemma {:induction false} SplitAllPrefix(x: string, y: string)
    requires ',' !in x
    ensures SplitAll(x + "," + y) == [x] + SplitAll(y)
    decreases |x|
  {
    if x == [] {
      assert x + "," + y == [','] + y;
      assert (x + "," + y)[1..] == y;
    } else {
      assert (x + "," + y)[1..] == x[1..] + "," + y;
      assert ',' !in x[1..];
      SplitAllPrefix(x[1..], y);
      assert [x[0]] + x[1..] == x;
    }
  }

  /** Splitting the join of comma-free pieces gives the pieces back. */
  lemma {:induction false} SplitAllJoin(xs: seq<string>)
    requires xs != [] && forall i :: 0 <= i < |xs| ==> ',' !in xs[i]
    ensures SplitAll(Join(xs, ",")) == xs
    decreases |xs|
  {
    if |xs| == 1 {
      SplitAllNoComma(xs[0]);
    } else {
      SplitAllJoin(xs[1..]);
      SplitAllPrefix(xs[0], Join(xs[1..], ","));
    }
  }

  // ---------------------------------------------------------------------
  // `replaceAll("^\"|\"$", "")`

  /** The characters before which, at the end of the input, Java's `$` matches. */
  predicate IsLineTerminator(c: char) {
    c == '\n' || c == '\r' || c == '\U{85}' || c == '\U{2028}' || c == '\U{2029}'
  }

  /**
   * Where the alternative `"$` matches: a quote at the very end, a quote
   * before a final line terminator, or a quote before a final "\r\n".
   */
  function TrailingQuote(t: string): (r: Option<nat>)
    ensures r.Some? <==>
      || (|t| >= 1 && t[|t| - 1] == '"')
      || (|t| >= 2 && t[|t| - 2] == '"' && IsLineTerminator(t[|t| - 1]))
      || (|t| >= 3 && t[|t| - 3..] == "\"\r\n")
    ensures r.Some? ==> r.value < |t| && t[r.value] == '"'
    ensures r.Some? ==>
      || r.value == |t| - 1
      || (r.value == |t| - 2 && IsLineTerminator(t[|t| - 1]))
      || (r.value == |t| - 3 && t[|t| - 2..] == "\r\n")
  {
    if |t| >= 1 && t[|t| - 1] == '"' then Some(|t| - 1)
    else if |t| >= 2 && t[|t| - 2] == '"' && IsLineTerminator(t[|t| - 1]) then Some(|t| - 2)
    else if |t| >= 3 && t[|t| - 3] == '"' && t[|t| - 2] == '\r' && t[|t| - 1] == '\n' then Some(|t| - 3)
    else None
  }

  /**
   * The quote-stripping replacement: one leading quote is removed, and one
   * quote that `"$` matches in the rest. Nothing else, spaces included, is
   * touched.
   */
  function StripQuotes(s: string): (r: string)
    ensures |s| - 2 <= |r| <= |s|
    ensures forall c :: c != '"' ==> multiset(r)[c] == multiset(s)[c]
  {
    var t := if |s| > 0 && s[0] == '"' then s[1..] else s;
    if |s| > 0 && s[0] == '"' then
      DropOneChar(s, 0);
      assert s[..0] + s[1..] == t;
      StripTrailingQuote(t)
    else StripTrailingQuote(t)
  }

  /** Removing the character at `k` removes exactly one occurrence of it. */
  lemma DropOneChar(t: string, k: nat)
    requires k < |t|
    ensures multiset(t) == multiset(t[..k] + t[k + 1..]) + multiset{t[k]}
  {
    assert t == t[..k] + [t[k]] + t[k + 1..];
  }

  /** The `"$` half of the replacement: the quote it matches, if any, is removed. */
  function StripTrailingQuote(t: string): (r: string)
    ensures |t| - 1 <= |r| <= |t|
    ensures forall c :: c != '"' ==> multiset(r)[c] == multiset(t)[c]
  {
    var q := TrailingQuote(t);
    if q.Some? then
      DropOneChar(t, q.value);
      t[..q.value] + t[q.value + 1..]
    else t
  }

  /** A quote only at the start is removed. */
  lemma StripQuotesLeadingOnly(x: string)
    requires '"' !in x
    ensures StripQuotes("\"" + x) == x
  {
    assert ("\"" + x)[1..] == x;
  }

  /** A quote only at the end is removed. */
  lemma StripQuotesTrailingOnly(x: string)
    requires '"' !in x
    ensures StripQuotes(x + "\"") == x
  {
    var s := x + "\"";
    if |x| > 0 {
      assert s[0] == x[0];
    }
    assert s[..|s| - 1] == x;
  }

  /** A closing quote followed by a final line terminator is removed; the terminator stays. */
  lemma StripQuotesBeforeLineTerminator(x: string, c: char)
    requires '"' !in x && IsLineTerminator(c)
    ensures StripQuotes("\"" + x + "\"" + [c]) == x + [c]
  {
    var s := "\"" + x + "\"" + [c];
    var t := s[1..];
    assert t == x + "\"" + [c];
    assert t[|t| - 2] == '"';
    assert t[..|t| - 2] == x;
    assert t[|t| - 1..] == [c];
  }

  /** A string without a quote is left as it is. */
  lemma StripQuotesNoQuote(s: string)
    requires '"' !in s
    ensures StripQuotes(s) == s
  {
  }

  /** A quoted item loses exactly its two quotes, whatever it holds. */
  lemma StripQuotesQuoted(x: string)
    ensures StripQuotes("\"" + x + "\"") == x
  {
    var s := "\"" + x + "\"";
    assert s[1..] == x + "\"";
  }

  // ---------------------------------------------------------------------
  // `StringUtils.isBlank` (micrometer): empty, or Java whitespace only

  /** `Character.isWhitespace`: the Unicode spaces except the non-breaking ones, and the ASCII separators. */
  predicate IsJavaWhitespace(c: char) {
    || c == ' ' || c == '\t' || c == '\n' || c == '\U{B}' || c == '\U{C}' || c == '\r'
    || ('\U{1C}' <= c <= '\U{1F}')
    || c == '\U{1680}' || ('\U{2000}' <= c <= '\U{2006}') || ('\U{2008}' <= c <= '\U{200A}')
    || c == '\U{2028}' || c == '\U{2029}' || c == '\U{205F}' || c == '\U{3000}'
  }

  predicate IsBlank(s: string) {
    forall i :: 0 <= i < |s| ==> IsJavaWhitespace(s[i])
  }

  /**
   * A concatenation is blank iff both parts are; a non-breaking space is
   * not whitespace to Java, so a text holding one is not blank.
   */
  lemma IsBlankConcat(a: string, b: string)
    ensures IsBlank(a + b) <==> IsBlank(a) && IsBlank(b)
    ensures !IsBlank(a + "\U{A0}" + b)
  {
    if IsBlank(a) && IsBlank(b) {
      forall i | 0 <= i < |a + b|
        ensures IsJavaWhitespace((a + b)[i])
      {
        if i >= |a| {
          assert (a + b)[i] == b[i - |a|];
        }
      }
    }
    if IsBlank(a + b) {
      forall i | 0 <= i < |a|
        ensures IsJavaWhitespace(a[i])
      {
        assert (a + b)[i] == a[i];
      }
      forall i | 0 <= i < |b|
        ensures IsJavaWhitespace(b[i])
      {
        assert (a + b)[|a| + i] == b[i];
      }
    }
    assert (a + "\U{A0}" + b)[|a|] == '\U{A0}';
  }

  // ---------------------------------------------------------------------
  // `convertToEntityAttribute`

  /** `valueOf` throws IllegalArgumentException for a name that is no constant. */
  datatype DecodeError = UnknownConstant(name: string)

  /** Each piece, stripped of its quotes, must name a constant; the first that does not fails. */
  function DecodeItems(items: seq<string>): (r: Result<seq<DietaryPreference>, DecodeError>)
    ensures r.Success? <==> forall i :: 0 <= i < |items| ==> ValueOf(StripQuotes(items[i])).Some?
    ensures r.Success? ==> |r.value| == |items|
    ensures r.Success? ==> forall i :: 0 <= i < |items| ==> Name(r.value[i]) == StripQuotes(items[i])
    ensures r.Failure? ==> ValueOf(r.error.name).None?
    ensures r.Failure? ==> exists i :: 0 <= i < |items| && r.error.name == StripQuotes(items[i])
                                      && forall k :: 0 <= k < i ==> ValueOf(StripQuotes(items[k])).Some?
    decreases |items|
  {
    if items == [] then Success([])
    else
      var name := StripQuotes(items[0]);
      var d := ValueOf(name);
      if d.None? then Failure(UnknownConstant(name))
      else
        var rest := DecodeItems(items[1..]);
        if rest.Failure? then rest
        else Success([d.value] + rest.value)
  }

  /**
   * `convertToEntityAttribute`: a null or too-short string and a blank body
   * give the empty array; otherwise the body between the first and last
   * characters, whatever they are, is split at commas and each piece decoded.
   */
  function Decode(dbData: Option<string>): (r: Result<seq<DietaryPreference>, DecodeError>)
    ensures dbData.None? || |dbData.value| < 2 ==> r == Success([])
    ensures dbData.Some? && |dbData.value| >= 2 ==> r == DecodeBody(dbData.value[1..|dbData.value| - 1])
  {
    if dbData.None? || |dbData.value| < 2 then Success([])
    else
      var s := dbData.value;
      DecodeBody(s[1..|s| - 1])
  }

  /** The decoding of what lies between the delimiters: nothing if it is blank, else its comma-separated items. */
  function DecodeBody(trimmed: string): (r: Result<seq<DietaryPreference>, DecodeError>)
    ensures IsBlank(trimmed) ==> r == Success([])
  {
    if IsBlank(trimmed) then Success([]) else DecodeItems(JavaSplit(trimmed))
  }

  /** Decoding reads only what lies between the first and the last character. */
  lemma DecodeIgnoresDelimiters(s: string, t: string)
    requires |s| >= 2 && |t| >= 2 && s[1..|s| - 1] == t[1..|t| - 1]
    ensures Decode(Some(s)) == Decode(Some(t))
  {
  }

  /** No name contains a comma or a quote. */
  lemma NamesPlain(a: seq<DietaryPreference>)
    ensures forall i :: 0 <= i < |a| ==> ',' !in Names(a)[i] && '"' !in Names(a)[i] && Names(a)[i] != ""
  {
    forall i | 0 <= i < |a|
      ensures ',' !in Names(a)[i] && '"' !in Names(a)[i] && Names(a)[i] != ""
    {
      match a[i]
      case Vegetarian =>
      case Pescatarian =>
      case Halal =>
      case Kosher =>
      case Vegan =>
    }
  }

  /** Splitting the join of comma-free pieces, the last of them non-empty, gives the pieces back. */
  lemma JavaSplitJoin(xs: seq<string>)
    requires xs != [] && xs[|xs| - 1] != ""
    requires forall i :: 0 <= i < |xs| ==> ',' !in xs[i]
    ensures JavaSplit(Join(xs, ",")) == xs
  {
    SplitAllJoin(xs);
    if ',' !in Join(xs, ",") {
      SplitAllNoComma(Join(xs, ","));
    }
  }

  /** The items of a non-empty encoding are the names, in order. */
  lemma SplitEncoding(a: seq<DietaryPreference>)
    requires a != []
    ensures JavaSplit(Join(Names(a), ",")) == Names(a)
  {
    NamesPlain(a);
    JavaSplitJoin(Names(a));
  }

  /** The names of the constants decode to the constants themselves. */
  lemma DecodeNames(a: seq<DietaryPreference>)
    ensures DecodeItems(Names(a)) == Success(a)
  {
    NamesPlain(a);
    forall i | 0 <= i < |a|
      ensures ValueOf(StripQuotes(Names(a)[i])) == Some(a[i])
    {
      StripQuotesNoQuote(Names(a)[i]);
      ValueOfName(a[i]);
    }
    var r := DecodeItems(Names(a));
    assert r.Success? && |r.value| == |a|;
    forall i | 0 <= i < |a|
      ensures r.value[i] == a[i]
    {
      StripQuotesNoQuote(Names(a)[i]);
      ValueOfName(a[i]);
      ValueOfName(r.value[i]);
    }
    assert r.value == a;
  }

  /** A non-empty encoding has a body that is not blank. */
  lemma BodyNotBlank(a: seq<DietaryPreference>)
    requires a != []
    ensures !IsBlank(Join(Names(a), ","))
  {
    JoinNamesNonEmpty(a);
    match a[0]
    case Vegetarian =>
    case Pescatarian =>
    case Halal =>
    case Kosher =>
    case Vegan =>
  }

  /** Round trip: decoding an encoding gives the array back; a null array comes back empty. */
  lemma DecodeEncode(attribute: Option<seq<DietaryPreference>>)
    ensures attribute.Some? ==> Decode(Some(Encode(attribute))) == Success(attribute.value)
    ensures attribute.None? ==> Decode(Some(Encode(attribute))) == Success([])
  {
    if attribute.Some? && attribute.value != [] {
      var a := attribute.value;
      var body := Join(Names(a), ",");
      assert Decode(Some(Encode(attribute))) == DecodeBody(body);
      BodyNotBlank(a);
      SplitEncoding(a);
      DecodeNames(a);
    } else {
      assert Encode(attribute) == "{}";
      assert IsBlank("{}"[1..1]);
    }
  }

  /** The names, each between double quotes, as Postgres writes array items that need quoting. */
  function QuotedNames(a: seq<DietaryPreference>): (r: seq<string>)
    ensures |r| == |a| && forall i :: 0 <= i < |a| ==> r[i] == "\"" + Name(a[i]) + "\""
  {
    seq(|a|, i requires 0 <= i < |a| => "\"" + Name(a[i]) + "\"")
  }

  /** Items that each read as the matching preference decode to the preferences. */
  lemma {:induction false} DecodeItemsPointwise(items: seq<string>, a: seq<DietaryPreference>)
    requires |items| == |a|
    requires forall i :: 0 <= i < |a| ==> ValueOf(StripQuotes(items[i])) == Some(a[i])
    ensures DecodeItems(items) == Success(a)
  {
    var r := DecodeItems(items);
    assert r.Success?;
    forall i | 0 <= i < |a|
      ensures r.value[i] == a[i]
    {
      ValueOfName(r.value[i]);
    }
    assert r.value == a;
  }

  /** The join of non-empty pieces starts with the first piece's first character. */
  lemma JoinFirst(xs: seq<string>)
    requires xs != [] && xs[0] != ""
    ensures |Join(xs, ",")| > 0 && Join(xs, ",")[0] == xs[0][0]
  {
    if |xs| > 1 {
      assert Join(xs, ",") == xs[0] + "," + Join(xs[1..], ",");
    }
  }

  /**
   * The quoted form Postgres may return reads the same as the plain one:
   * an array literal whose items are the quoted names decodes to the
   * preferences.
   */
  lemma DecodeQuotedEncoding(a: seq<DietaryPreference>)
    ensures Decode(Some("{" + Join(QuotedNames(a), ",") + "}")) == Success(a)
  {
    var q := QuotedNames(a);
    var body := Join(q, ",");
    var s := "{" + body + "}";
    assert s[1..|s| - 1] == body;
    if a == [] {
      assert body == "";
    } else {
      JoinFirst(q);
      assert !IsBlank(body) by {
        assert body[0] == '"';
      }
      NamesPlain(a);
      forall i | 0 <= i < |q|
        ensures ',' !in q[i]
      {
        assert ',' !in Names(a)[i];
      }
      JavaSplitJoin(q);
      forall i | 0 <= i < |a|
        ensures ValueOf(StripQuotes(q[i])) == Some(a[i])
      {
        StripQuotesQuoted(Name(a[i]));
        ValueOfName(a[i]);
      }
      DecodeItemsPointwise(q, a);
    }
  }
}
