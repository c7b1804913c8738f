/**
 * The batch that turns the joined movie rows into the persisted movie table
 * `(id, title, tags)`: decode the four nested columns, strip spaces from the
 * names, concatenate the tag list, join it with spaces, lower-case it and
 * finally stem it.
 */
module Pipeline {
  import opened Results
  import Text
  import opened Extract

  /** A row of the joined table after `dropna`, its nested columns decoded. */
  datatype Row = Row(
    id: int,
    title: string,
    overview: string,
    genres: seq<Record>,
    keywords: seq<Record>,
    cast: seq<Record>,
    crew: seq<Record>)

  /** A row's token-list columns once every column has been flattened. */
  datatype Features = Features(
    overview: seq<string>,
    genres: seq<string>,
    keywords: seq<string>,
    cast: seq<string>,
    crew: seq<string>)

  /** A row of the persisted movie table. */
  datatype Movie = Movie(id: int, title: string, tags: string)

  predicate NoSpaceInNames(f: Features) {
    && (forall i :: 0 <= i < |f.genres| ==> ' ' !in f.genres[i])
    && (forall i :: 0 <= i < |f.keywords| ==> ' ' !in f.keywords[i])
    && (forall i :: 0 <= i < |f.cast| ==> ' ' !in f.cast[i])
    && (forall i :: 0 <= i < |f.crew| ==> ' ' !in f.crew[i])
  }

  /** A row's Features from its flattened name columns: split the overview, strip the names. */
  function Assemble(m: Row, genres: seq<string>, keywords: seq<string>,
                    cast: seq<string>, crew: seq<string>): Features
  {
    Features(Text.Split(m.overview), StripSpaces(genres), StripSpaces(keywords),
             StripSpaces(cast), StripSpaces(crew))
  }

  /** All column transformations applied to a single row. */
  function Decode(m: Row): (r: Result<Features>)
    ensures r.Ok? <==>
      Convert(m.genres).Ok? && Convert(m.keywords).Ok? &&
      Convert3(m.cast).Ok? && FetchDirector(m.crew).Ok?
    ensures r.Ok? ==> NoSpaceInNames(r.value)
    ensures r.Ok? ==> forall i :: 0 <= i < |r.value.overview| ==> Text.IsWord(r.value.overview[i])
    ensures r.Ok? ==>
      && |r.value.genres| == |m.genres|
      && |r.value.keywords| == |m.keywords|
      && |r.value.cast| == Min(3, |m.cast|)
      && |r.value.crew| <= 1
  {
    var genres :- Convert(m.genres);
    var keywords :- Convert(m.keywords);
    var cast :- Convert3(m.cast);
    var crew :- FetchDirector(m.crew);
    Ok(Assemble(m, genres, keywords, cast, crew))
  }

  /** The tag list: overview tokens, then genres, cast and director. The
      keywords column is decoded but does not take part. */
  function Tags(f: Features): (r: seq<string>)
    ensures |r| == |f.overview| + |f.genres| + |f.cast| + |f.crew|
  {
    f.overview + f.genres + f.cast + f.crew
  }

  /** The tag list joined with single spaces and lower-cased. Lower-casing
      leaves spaces alone, so the result is the lower-cased tags in order with
      one space after each tag but the last. */
  function TagString(f: Features): (r: string)
    ensures Text.Lower(r) == r
    ensures var tags := Text.MapWords(Text.Lower, Tags(f));
      |tags| > 0 ==> multiset(r)[' '] == multiset(Text.Concat(tags))[' '] + |tags| - 1
    ensures var tags := Text.MapWords(Text.Lower, Tags(f));
      forall c :: c != ' ' ==> multiset(r)[c] == multiset(Text.Concat(tags))[c]
    ensures Text.SpaceJoined(r, Text.MapWords(Text.Lower, Tags(f)))
  {
    var s := Text.Lower(Text.Join(Tags(f)));
    assert Text.Lower(s) == s;
    Text.LowerJoin(Tags(f));
    Text.JoinCounts(Text.MapWords(Text.Lower, Tags(f)));
    Text.JoinLayout(Text.MapWords(Text.Lower, Tags(f)));
    s
  }

  /** `stem`: split on whitespace, stem every token, join with single spaces.
      Whatever the stemmer returns, the result is the stems in order with one
      space after each stem but the last (which fixes it); it holds the stems'
      characters plus those separators, and when every stem is a single word
      it splits back into the stems. */
  function Stem(stemmer: string -> string, text: string): (r: string)
    ensures var stems := Text.MapWords(stemmer, Text.Split(text));
      |stems| > 0 ==> multiset(r)[' '] == multiset(Text.Concat(stems))[' '] + |stems| - 1
    ensures var stems := Text.MapWords(stemmer, Text.Split(text));
      forall c :: c != ' ' ==> multiset(r)[c] == multiset(Text.Concat(stems))[c]
    ensures (forall i :: 0 <= i < |Text.Split(text)| ==> Text.IsWord(stemmer(Text.Split(text)[i]))) ==>
      Text.Split(r) == Text.MapWords(stemmer, Text.Split(text))
    ensures Text.SpaceJoined(r, Text.MapWords(stemmer, Text.Split(text)))
  {
    var stems := Text.MapWords(stemmer, Text.Split(text));
    Text.JoinLayout(stems);
    Text.JoinCounts(stems);
    Text.JoinOfWords(stems);
    Text.Join(stems)
  }

  /** The four nested columns, in the order the script flattens them. */
  datatype Field = Genres | Keywords | Cast | Crew

  /** The helper the script applies to `field` of one row. */
  function Flatten(field: Field, m: Row): (r: Result<seq<string>>)
    ensures r.Err? ==> r.error.KeyError? && Decode(m).Err?
  {
    match field
    case Genres => Convert(m.genres)
    case Keywords => Convert(m.keywords)
    case Cast => Convert3(m.cast)
    case Crew => FetchDirector(m.crew)
  }

  /** Flattens `field` of every row, stopping at the first row that fails. */
  function Column(rows: seq<Row>, field: Field): (r: Result<seq<seq<string>>>)
    ensures r.Ok? <==> forall i :: 0 <= i < |rows| ==> Flatten(field, rows[i]).Ok?
    ensures r.Ok? ==> |r.value| == |rows|
    ensures r.Ok? ==> forall i :: 0 <= i < |rows| ==> r.value[i] == Flatten(field, rows[i]).value
    ensures r.Err? ==> exists k :: (0 <= k < |rows| && Flatten(field, rows[k]).Err? &&
      r.error == Flatten(field, rows[k]).error &&
      forall j :: 0 <= j < k ==> Flatten(field, rows[j]).Ok?)
  {
    if |rows| == 0 then Ok([])
    else
      var head := Flatten(field, rows[0]);
      if head.Err? then Err(head.error)
      else
        var rest := Column(rows[1..], field);
        if rest.Err? then
          ghost var k :| 0 <= k < |rows| - 1 && Flatten(field, rows[1..][k]).Err? &&
            rest.error == Flatten(field, rows[1..][k]).error &&
            forall j :: 0 <= j < k ==> Flatten(field, rows[1..][j]).Ok?;
          assert Flatten(field, rows[k + 1]).Err? && forall j :: 0 <= j < k + 1 ==> Flatten(field, rows[j]).Ok?;
          Err(rest.error)
        else
          Ok([head.value] + rest.value)
  }

  /** A column fails only where a row's own decoding fails, and always with
      a missing key. */
  lemma ColumnFailure(rows: seq<Row>, field: Field)
    requires Column(rows, field).Err?
    ensures Column(rows, field).error.KeyError?
    ensures exists k :: 0 <= k < |rows| && Decode(rows[k]).Err?
  {
  }

  /** The batch, column by column as pandas applies it: all genres first,
      then keywords, cast and crew; a failing row aborts the whole batch. */
  function Build(rows: seq<Row>, stemmer: string -> string): (r: Result<seq<Movie>>)
    ensures r.Ok? <==> forall i :: 0 <= i < |rows| ==> Decode(rows[i]).Ok?
    ensures r.Ok? ==> |r.value| == |rows|
    ensures r.Ok? ==> forall i :: 0 <= i < |rows| ==>
      && r.value[i].id == rows[i].id
      && r.value[i].title == rows[i].title
      && r.value[i].tags == Stem(stemmer, TagString(Decode(rows[i]).value))
    ensures r.Err? ==> r.error.KeyError?
  {
    var genres := Column(rows, Genres);
    if genres.Err? then
      ColumnFailure(rows, Genres);
      Err(genres.error)
    else
      var keywords := Column(rows, Keywords);
      if keywords.Err? then
        ColumnFailure(rows, Keywords);
        Err(keywords.error)
      else
        var cast := Column(rows, Cast);
        if cast.Err? then
          ColumnFailure(rows, Cast);
          Err(cast.error)
        else
          var crew := Column(rows, Crew);
          if crew.Err? then
            ColumnFailure(rows, Crew);
            Err(crew.error)
          else
            Ok(Tabulate(rows, genres.value, keywords.value, cast.value, crew.value, stemmer))
  }

  /** The movie table built from the four flattened columns. */
  function Tabulate(rows: seq<Row>, genres: seq<seq<string>>, keywords: seq<seq<string>>,
                    cast: seq<seq<string>>, crew: seq<seq<string>>,
                    stemmer: string -> string): (r: seq<Movie>)
    requires |genres| == |keywords| == |cast| == |crew| == |rows|
    requires forall i :: 0 <= i < |rows| ==> Convert(rows[i].genres) == Ok(genres[i])
    requires forall i :: 0 <= i < |rows| ==> Convert(rows[i].keywords) == Ok(keywords[i])
    requires forall i :: 0 <= i < |rows| ==> Convert3(rows[i].cast) == Ok(cast[i])
    requires forall i :: 0 <= i < |rows| ==> FetchDirector(rows[i].crew) == Ok(crew[i])
    ensures |r| == |rows|
    ensures forall i :: 0 <= i < |rows| ==> Decode(rows[i]).Ok?
    ensures forall i :: 0 <= i < |rows| ==>
      r[i] == Movie(rows[i].id, rows[i].title, Stem(stemmer, TagString(Decode(rows[i]).value)))
  {
    seq(|rows|, i requires 0 <= i < |rows| =>
      Movie(rows[i].id, rows[i].title,
            Stem(stemmer, TagString(Assemble(rows[i], genres[i], keywords[i], cast[i], crew[i])))))
  }

  // ---------------------------------------------------------------------
  // Properties of the tag pipeline
  // ---------------------------------------------------------------------

  /** The tag list of a decoded row: its overview tokens, then its genres,
      its first three cast names and its director, each without spaces. */
  lemma TagsLayout(m: Row)
    requires Decode(m).Ok?
    ensures Tags(Decode(m).value) ==
      Text.Split(m.overview) + StripSpaces(Convert(m.genres).value) +
      StripSpaces(Convert3(m.cast).value) + StripSpaces(FetchDirector(m.crew).value)
  {
  }

  /** The keywords column never contributes a tag: two rows that differ only
      in their (decodable) keywords get the same tag string. */
  lemma KeywordsNeverReachTags(m: Row, keywords: seq<Record>)
    requires Decode(m).Ok?
    requires Convert(keywords).Ok?
    ensures Decode(m.(keywords := keywords)).Ok?
    ensures TagString(Decode(m.(keywords := keywords)).value) == TagString(Decode(m).value)
  {
  }

  /** The keywords column can still abort the batch. */
  lemma KeywordsCanAbort(m: Row)
    requires !AllNamed(m.keywords)
    ensures Decode(m) == Err(KeyError("name"))
  {
  }

  /** When every tag is a single word, the tokens the tag string splits into
      are exactly the lower-cased tags, in order. */
  lemma {:induction false} TagStringTokens(f: Features)
    requires forall i :: 0 <= i < |Tags(f)| ==> Text.IsWord(Tags(f)[i])
    ensures Text.Split(TagString(f)) == Text.MapWords(Text.Lower, Tags(f))
  {
    Text.SplitLower(Text.Join(Tags(f)));
    Text.SplitJoin(Tags(f));
  }

  /** The error a batch reports is decided column by column: a crew without
      a job in the first row loses to a genre without a name in the second. */
  lemma ColumnOrderDecidesError(stemmer: string -> string)
    ensures var rows := [
              Row(1, "A", "", [], [], [], [Record(Some("P"), None)]),
              Row(2, "B", "", [Record(None, None)], [], [], [])];
            Decode(rows[0]) == Err(KeyError("job")) &&
            Build(rows, stemmer) == Err(KeyError("name"))
  {
  }
}
