/** The search URL the frontend requests (frontend/src/useFetchMovies.js:6-18):
    the backend's `/api/movies?` followed by a `title=`, `&year=`,
    `&from_item=` and `&size=` segment for each argument that is truthy, with
    the values interpolated verbatim. Beside it, the reading of such a query
    string on the backend side: pieces split at `&`, each split at its first
    `=`, empty pieces dropped, and the last value of a repeated name winning. */
module FetchMovies {
  import opened Wrappers
  import opened Decimal

  /** `${VITE_BACKEND_URL}/api/movies?` */
  function SearchPrefix(backendUrl: string): string {
    backendUrl + "/api/movies?"
  }

  /** JavaScript truthiness of a number that may be null: present and not 0. */
  predicate Truthy(n: Option<int>) {
    n.Some? && n.value != 0
  }

  /** The first segment: `title=<title>` without a leading `&`, or nothing. */
  function TitleSegment(title: string): string {
    if title != "" then "title=" + title else ""
  }

  function YearSegment(year: string): string {
    if year != "" then "&year=" + year else ""
  }

  function FromSegment(from: Option<int>): string {
    if Truthy(from) then "&from_item=" + IntToString(from.value) else ""
  }

  function SizeSegment(size: Option<int>): string {
    if Truthy(size) then "&size=" + IntToString(size.value) else ""
  }

  /** The URL for a title and year (text field values) and a window. */
  function SearchUrl(backendUrl: string, title: string, year: string, from: Option<int>, size: Option<int>): string {
    SearchPrefix(backendUrl) + TitleSegment(title) + YearSegment(year) + FromSegment(from) + SizeSegment(size)
  }

  /** The URL built by successive `+=` under four `if`s. */
  method BuildSearchUrl(backendUrl: string, title: string, year: string, from: Option<int>, size: Option<int>)
    returns (url: string)
    ensures url == SearchUrl(backendUrl, title, year, from, size)
  {
    url := backendUrl + "/api/movies?";
    if title != "" {
      url := url + ("title=" + title);
    }
    assert url == SearchPrefix(backendUrl) + TitleSegment(title);
    if year != "" {
      url := url + ("&year=" + year);
    }
    assert url == SearchPrefix(backendUrl) + TitleSegment(title) + YearSegment(year);
    if from.Some? && from.value != 0 {
      url := url + ("&from_item=" + IntToString(from.value));
    }
    assert url == SearchPrefix(backendUrl) + TitleSegment(title) + YearSegment(year) + FromSegment(from);
    if size.Some? && size.value != 0 {
      url := url + ("&size=" + IntToString(size.value));
    }
  }

  // ---------------------------------------------------------------------------
  // Reading a query string

  /** `s` split at every `sep`; there is always at least one piece. */
  function SplitOn(s: string, sep: char): (pieces: seq<string>)
    ensures |pieces| >= 1
  {
    if s == [] then [[]]
    else
      var rest := SplitOn(s[1..], sep);
      if s[0] == sep then [[]] + rest else [[s[0]] + rest[0]] + rest[1..]
  }

  /** Index of the first `c` in `s`, or |s| when there is none. */
  function IndexOf(s: string, c: char): (i: nat)
    ensures i <= |s|
    ensures forall k :: 0 <= k < i ==> s[k] != c
    ensures i < |s| ==> s[i] == c
  {
    if s == [] then 0 else if s[0] == c then 0 else 1 + IndexOf(s[1..], c)
  }

  /** A piece split at its first `=`; a piece without one has an empty value. */
  function ParsePair(piece: string): (string, string) {
    var i := IndexOf(piece, '=');
    if i < |piece| then (piece[..i], piece[i + 1..]) else (piece, "")
  }

  /** The name-value pairs of the non-empty pieces, in order. */
  function Pairs(pieces: seq<string>): seq<(string, string)> {
    if pieces == [] then []
    else (if pieces[0] == "" then [] else [ParsePair(pieces[0])]) + Pairs(pieces[1..])
  }

  function ParseQuery(query: string): seq<(string, string)> {
    Pairs(SplitOn(query, '&'))
  }

  /** The value of the last pair named `name`. */
  function Lookup(pairs: seq<(string, string)>, name: string): Option<string> {
    if pairs == [] then None
    else if pairs[|pairs| - 1].0 == name then Some(pairs[|pairs| - 1].1)
    else Lookup(pairs[..|pairs| - 1], name)
  }

  /** The offset the backend uses: `from_item` when sent, else its default 0;
      None when the value is not an integer. */
  function EffectiveFrom(pairs: seq<(string, string)>): Option<int> {
    match Lookup(pairs, "from_item")
    case None => Some(0)
    case Some(v) => ParseInt(v)
  }

  /** The page size the backend uses: `size` when sent, else its default 10. */
  function EffectiveSize(pairs: seq<(string, string)>): Option<int> {
    match Lookup(pairs, "size")
    case None => Some(10)
    case Some(v) => ParseInt(v)
  }

  /** Text that survives a query string unchanged: no separator, no fragment
      mark and nothing that percent-decoding would rewrite. */
  predicate Plain(s: string) {
    forall k :: 0 <= k < |s| ==> s[k] != '&' && s[k] != '#' && s[k] != '%' && s[k] != '+'
  }

  // ---------------------------------------------------------------------------
  // Properties

  predicate NoAmp(s: string) {
    forall k :: 0 <= k < |s| ==> s[k] != '&'
  }

  /** Text without the separator is a single piece. */
  lemma {:induction false} SplitWithoutSep(s: string)
    requires NoAmp(s)
    ensures SplitOn(s, '&') == [s]
  {
    if s != [] {
      SplitWithoutSep(s[1..]);
      assert [s[0]] + s[1..] == s;
    }
  }

  /** Appending a separator and a piece without one adds exactly that piece. */
  lemma {:induction false} SplitAppend(x: string, s: string)
    requires NoAmp(s)
    ensures SplitOn(x + "&" + s, '&') == SplitOn(x, '&') + [s]
  {
    if x == [] {
      assert x + "&" + s == "&" + s;
      assert ("&" + s)[1..] == s;
      SplitWithoutSep(s);
    } else {
      assert (x + "&" + s)[1..] == x[1..] + "&" + s;
      SplitAppend(x[1..], s);
      var rest := SplitOn(x[1..], '&');
      assert (rest + [s])[1..] == rest[1..] + [s];
    }
  }

  /** `name=value` as one piece of a query string. */
  function Piece(name: string, value: string): string {
    name + "=" + value
  }

  predicate NoEq(s: string) {
    forall k :: 0 <= k < |s| ==> s[k] != '='
  }

  /** The four parameter names carry neither separator and are distinct. */
  lemma ParameterNames()
    ensures NoEq("title") && NoEq("year") && NoEq("from_item") && NoEq("size")
    ensures NoAmp("title") && NoAmp("year") && NoAmp("from_item") && NoAmp("size")
    ensures "title" != "year" && "title" != "from_item" && "title" != "size"
    ensures "year" != "from_item" && "year" != "size" && "from_item" != "size"
  {
  }

  /** A name without `=` followed by `=` and a value reads back as that pair. */
  lemma NamedPiece(name: string, value: string)
    requires NoEq(name)
    ensures ParsePair(Piece(name, value)) == (name, value)
  {
    var piece := Piece(name, value);
    var i := IndexOf(piece, '=');
    assert piece[|name|] == '=';
    assert i == |name|;
    assert piece[..i] == name && piece[i + 1..] == value;
  }

  lemma PieceNoAmp(name: string, value: string)
    requires NoAmp(name) && NoAmp(value)
    ensures NoAmp(Piece(name, value))
  {
    var piece := Piece(name, value);
    assert forall k :: |name| < k < |piece| ==> piece[k] == value[k - |name| - 1];
  }

  lemma DigitsNoAmp(i: int)
    ensures NoAmp(IntToString(i))
  {
    var s := IntToString(i);
    if i < 0 {
      assert s == "-" + NatToString(-i);
      assert forall k :: 1 <= k < |s| ==> s[k] == NatToString(-i)[k - 1];
    } else {
      assert s == NatToString(i);
    }
  }

  /** A segment that is either empty or `&` and a piece adds the piece. */
  lemma SplitSegment(q: string, present: bool, name: string, value: string)
    requires NoAmp(name) && NoAmp(value)
    ensures SplitOn(q + (if present then "&" + Piece(name, value) else ""), '&')
            == SplitOn(q, '&') + (if present then [Piece(name, value)] else [])
  {
    if present {
      PieceNoAmp(name, value);
      assert q + ("&" + Piece(name, value)) == q + "&" + Piece(name, value);
      SplitAppend(q, Piece(name, value));
    } else {
      assert q + "" == q;
    }
  }

  lemma {:induction false} PairsAppend(a: seq<string>, b: seq<string>)
    ensures Pairs(a + b) == Pairs(a) + Pairs(b)
  {
    if a != [] {
      assert (a + b)[1..] == a[1..] + b;
      PairsAppend(a[1..], b);
    } else {
      assert a + b == b;
    }
  }

  /** The pieces of the query string, one per segment present. */
  function Pieces(title: string, year: string, from: Option<int>, size: Option<int>): seq<string> {
    [TitleSegment(title)]
    + (if year != "" then [Piece("year", year)] else [])
    + (if Truthy(from) then [Piece("from_item", IntToString(from.value))] else [])
    + (if Truthy(size) then [Piece("size", IntToString(size.value))] else [])
  }

  /** The segment literals split into separator, name and `=`. */
  lemma SegmentLiterals()
    ensures "title=" == "title" + "="
    ensures "&year=" == "&" + ("year" + "=")
    ensures "&from_item=" == "&" + ("from_item" + "=")
    ensures "&size=" == "&" + ("size" + "=")
  {
    assert "title=" == "title" + "=";
    assert "&year=" == "&" + ("year" + "=");
    assert "&from_item=" == "&" + ("from_item" + "=");
  }

  /** A present segment is a separator and its named piece. */
  lemma SegmentIsPiece(literal: string, name: string, value: string)
    requires literal == "&" + (name + "=")
    ensures literal + value == "&" + Piece(name, value)
  {
  }

  /** Each segment is empty or a separator and its named piece. */
  lemma SegmentsArePieces(title: string, year: string, from: Option<int>, size: Option<int>)
    ensures TitleSegment(title) == if title != "" then Piece("title", title) else ""
    ensures YearSegment(year) == if year != "" then "&" + Piece("year", year) else ""
    ensures FromSegment(from) == if Truthy(from) then "&" + Piece("from_item", IntToString(from.value)) else ""
    ensures SizeSegment(size) == if Truthy(size) then "&" + Piece("size", IntToString(size.value)) else ""
  {
    SegmentLiterals();
    SegmentIsPiece("&year=", "year", year);
    if Truthy(from) { SegmentIsPiece("&from_item=", "from_item", IntToString(from.value)); }
    if Truthy(size) { SegmentIsPiece("&size=", "size", IntToString(size.value)); }
  }

  /** The query string splits into one piece per segment. */
  lemma SplitSearchQuery(title: string, year: string, from: Option<int>, size: Option<int>)
    requires Plain(title) && Plain(year)
    ensures SplitOn(TitleSegment(title) + YearSegment(year) + FromSegment(from) + SizeSegment(size), '&')
            == Pieces(title, year, from, size)
  {
    ParameterNames();
    SegmentsArePieces(title, year, from, size);
    var t := TitleSegment(title);
    assert NoAmp(t) by {
      if title != "" {
        assert NoAmp(title);
        PieceNoAmp("title", title);
      }
    }
    SplitWithoutSep(t);
    var fromText := IntToString(if from.Some? then from.value else 0);
    var sizeText := IntToString(if size.Some? then size.value else 0);
    DigitsNoAmp(if from.Some? then from.value else 0);
    DigitsNoAmp(if size.Some? then size.value else 0);
    assert NoAmp(year);
    SplitSegment(t, year != "", "year", year);
    SplitSegment(t + YearSegment(year), Truthy(from), "from_item", fromText);
    SplitSegment(t + YearSegment(year) + FromSegment(from), Truthy(size), "size", sizeText);
  }

  /** The pairs the backend reads: title, year, from_item and size, each at
      most once and in that order, each present exactly when its argument is
      truthy, with the values as given. */
  function ExpectedPairs(title: string, year: string, from: Option<int>, size: Option<int>): seq<(string, string)> {
    (if title != "" then [("title", title)] else [])
    + (if year != "" then [("year", year)] else [])
    + (if Truthy(from) then [("from_item", IntToString(from.value))] else [])
    + (if Truthy(size) then [("size", IntToString(size.value))] else [])
  }

  /** A single piece reads as one pair, or none when it is empty. */
  lemma PairsOfOne(piece: string)
    ensures Pairs([piece]) == if piece == "" then [] else [ParsePair(piece)]
  {
    assert [piece][1..] == [];
  }

  /** An optional named piece reads as its pair. */
  lemma OptionalPair(present: bool, name: string, value: string)
    requires |name| > 0 && NoEq(name)
    ensures Pairs(if present then [Piece(name, value)] else []) == if present then [(name, value)] else []
  {
    if present {
      PairsOfOne(Piece(name, value));
      NamedPiece(name, value);
    }
  }

  lemma PiecePairs(title: string, year: string, from: Option<int>, size: Option<int>)
    ensures Pairs(Pieces(title, year, from, size)) == ExpectedPairs(title, year, from, size)
  {
    var fromText := IntToString(if from.Some? then from.value else 0);
    var sizeText := IntToString(if size.Some? then size.value else 0);
    var t := [TitleSegment(title)];
    var y := if year != "" then [Piece("year", year)] else [];
    var f := if Truthy(from) then [Piece("from_item", fromText)] else [];
    var z := if Truthy(size) then [Piece("size", sizeText)] else [];
    ParameterNames();
    SegmentsArePieces(title, year, from, size);
    assert Pieces(title, year, from, size) == t + y + f + z;
    PairsAppend(t + y + f, z);
    PairsAppend(t + y, f);
    PairsAppend(t, y);
    PairsOfOne(TitleSegment(title));
    if title != "" {
      NamedPiece("title", title);
    }
    OptionalPair(year != "", "year", year);
    OptionalPair(Truthy(from), "from_item", fromText);
    OptionalPair(Truthy(size), "size", sizeText);
  }

  /** The query string of a search URL. */
  function QueryOf(backendUrl: string, url: string): string
    requires |url| >= |SearchPrefix(backendUrl)|
  {
    url[|SearchPrefix(backendUrl)|..]
  }

  /** For plain title and year text, the backend reads back exactly the
      segments the frontend put in the URL. */
  lemma ReadBack(backendUrl: string, title: string, year: string, from: Option<int>, size: Option<int>)
    requires Plain(title) && Plain(year)
    ensures ParseQuery(QueryOf(backendUrl, SearchUrl(backendUrl, title, year, from, size)))
            == ExpectedPairs(title, year, from, size)
  {
    DropPrefix(SearchPrefix(backendUrl), TitleSegment(title), YearSegment(year), FromSegment(from), SizeSegment(size));
    SplitSearchQuery(title, year, from, size);
    PiecePairs(title, year, from, size);
  }

  lemma DropPrefix(prefix: string, a: string, b: string, c: string, d: string)
    ensures (prefix + a + b + c + d)[|prefix|..] == a + b + c + d
  {
    assert prefix + a + b + c + d == prefix + (a + b + c + d);
  }

  /** Looking up a name after an optional pair. */
  lemma LookupStep(x: seq<(string, string)>, present: bool, name: string, value: string, key: string)
    ensures Lookup(x + (if present then [(name, value)] else []), key)
            == if present && name == key then Some(value) else Lookup(x, key)
  {
    var y := if present then [(name, value)] else [];
    if present {
      assert (x + y)[..|x + y| - 1] == x;
    } else {
      assert x + y == x;
    }
  }

  /** The value read for `key` from the expected pairs, written out
      through the optional pairs from the last to the first. */
  lemma LookupExpected(title: string, year: string, from: Option<int>, size: Option<int>, key: string)
    ensures Lookup(ExpectedPairs(title, year, from, size), key)
            == if Truthy(size) && key == "size" then Some(IntToString(size.value))
               else if Truthy(from) && key == "from_item" then Some(IntToString(from.value))
               else if year != "" && key == "year" then Some(year)
               else if title != "" && key == "title" then Some(title)
               else None
  {
    var fromText := IntToString(if from.Some? then from.value else 0);
    var sizeText := IntToString(if size.Some? then size.value else 0);
    var t := if title != "" then [("title", title)] else [];
    var ty := t + (if year != "" then [("year", year)] else []);
    var tyf := ty + (if Truthy(from) then [("from_item", fromText)] else []);
    assert ExpectedPairs(title, year, from, size) == tyf + (if Truthy(size) then [("size", sizeText)] else []);
    assert [] + t == t;
    LookupStep([], title != "", "title", title, key);
    LookupStep(t, year != "", "year", year, key);
    LookupStep(ty, Truthy(from), "from_item", fromText, key);
    LookupStep(tyf, Truthy(size), "size", sizeText, key);
  }

  /** Each name the backend reads has the value the frontend sent, and none
      when its segment was left out. */
  lemma ReadBackValues(backendUrl: string, title: string, year: string, from: Option<int>, size: Option<int>)
    requires Plain(title) && Plain(year)
    ensures var pairs := ParseQuery(QueryOf(backendUrl, SearchUrl(backendUrl, title, year, from, size)));
            && Lookup(pairs, "title") == (if title != "" then Some(title) else None)
            && Lookup(pairs, "year") == (if year != "" then Some(year) else None)
            && Lookup(pairs, "from_item") == (if Truthy(from) then Some(IntToString(from.value)) else None)
            && Lookup(pairs, "size") == (if Truthy(size) then Some(IntToString(size.value)) else None)
  {
    ReadBack(backendUrl, title, year, from, size);
    ParameterNames();
    LookupExpected(title, year, from, size, "title");
    LookupExpected(title, year, from, size, "year");
    LookupExpected(title, year, from, size, "from_item");
    LookupExpected(title, year, from, size, "size");
  }

  /** The offset the backend uses is the one the frontend asked for: an
      omitted offset (null or 0) falls back to the backend default 0. */
  lemma OffsetArrives(backendUrl: string, title: string, year: string, from: Option<int>, size: Option<int>)
    requires Plain(title) && Plain(year)
    ensures EffectiveFrom(ParseQuery(QueryOf(backendUrl, SearchUrl(backendUrl, title, year, from, size))))
            == Some(from.GetOr(0))
  {
    ReadBackValues(backendUrl, title, year, from, size);
    if Truthy(from) { IntRoundTrip(from.value); }
  }

  /** The page size the backend uses is the one asked for, or its default 10
      when the size is null or 0. */
  lemma SizeArrives(backendUrl: string, title: string, year: string, from: Option<int>, size: Option<int>)
    requires Plain(title) && Plain(year)
    ensures EffectiveSize(ParseQuery(QueryOf(backendUrl, SearchUrl(backendUrl, title, year, from, size))))
            == Some(if Truthy(size) then size.value else 10)
  {
    ReadBackValues(backendUrl, title, year, from, size);
    if Truthy(size) { IntRoundTrip(size.value); }
  }

  /** The query string of a search URL is its four segments. */
  lemma QueryIsSegments(backendUrl: string, title: string, year: string, from: Option<int>, size: Option<int>)
    ensures var url := SearchUrl(backendUrl, title, year, from, size);
            && |url| >= |SearchPrefix(backendUrl)|
            && url[..|SearchPrefix(backendUrl)|] == SearchPrefix(backendUrl)
            && QueryOf(backendUrl, url) == TitleSegment(title) + YearSegment(year) + FromSegment(from) + SizeSegment(size)
  {
    var query := TitleSegment(title) + YearSegment(year) + FromSegment(from) + SizeSegment(size);
    DropPrefix(SearchPrefix(backendUrl), TitleSegment(title), YearSegment(year), FromSegment(from), SizeSegment(size));
    StartsWith(SearchPrefix(backendUrl), query);
  }

  /** With an empty title and a year, the query starts with `&year=`: the
      URL reads `/api/movies?&year=`. */
  lemma EmptyTitleWithYear(backendUrl: string, year: string, from: Option<int>, size: Option<int>)
    requires year != ""
    ensures SearchUrl(backendUrl, "", year, from, size)
            == SearchPrefix(backendUrl) + "&year=" + year + FromSegment(from) + SizeSegment(size)
  {
    assert TitleSegment("") == "";
    assert SearchPrefix(backendUrl) + "" == SearchPrefix(backendUrl);
  }

  lemma StartsWith(a: string, b: string)
    ensures (a + b)[..|a|] == a && (a + b)[|a|..] == b
  {
  }

  /** The query string of a search for a title carrying `&year=`. */
  lemma InjectedQuery(backendUrl: string, title: string, year: string)
    ensures QueryOf(backendUrl, SearchUrl(backendUrl, title + "&year=" + year, "", None, None))
            == Piece("title", title) + "&" + Piece("year", year)
  {
    var injected := title + "&year=" + year;
    DropPrefix(SearchPrefix(backendUrl), TitleSegment(injected), "", "", "");
    assert TitleSegment(injected) + "" + "" + "" == "title=" + injected;
    SegmentLiterals();
    assert "title=" + injected == ("title" + "=") + title + ("&" + ("year" + "=")) + year;
  }

  /** Two pieces joined by `&` read as the pairs of each. */
  lemma TwoPieces(first: string, second: string)
    requires NoAmp(first) && NoAmp(second)
    ensures ParseQuery(first + "&" + second) == Pairs([first]) + Pairs([second])
  {
    SplitAppend(first, second);
    SplitWithoutSep(first);
    PairsAppend([first], [second]);
  }

  /** Values are interpolated verbatim: a title carrying `&year=` and a
      year sets the year the backend reads, though the year field is empty. */
  lemma TitleInjectsYear(backendUrl: string, title: string, year: string)
    requires NoAmp(title) && NoAmp(year)
    ensures Lookup(ParseQuery(QueryOf(backendUrl, SearchUrl(backendUrl, title + "&year=" + year, "", None, None))), "year")
            == Some(year)
  {
    ParameterNames();
    InjectedQuery(backendUrl, title, year);
    PieceNoAmp("title", title);
    PieceNoAmp("year", year);
    TwoPieces(Piece("title", title), Piece("year", year));
    PairsOfOne(Piece("year", year));
    NamedPiece("year", year);
    LookupStep(Pairs([Piece("title", title)]), true, "year", year, "year");
  }
}
