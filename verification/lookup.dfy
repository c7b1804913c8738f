/**
 * `recommend(movie)`: find the movie's row, rank the other movies by that
 * row of the similarity matrix and return the titles at ranks 1 to 5.
 */
module Lookup {
  import opened Results
  import opened Ranking

  /** The position of the first title equal to `title`. */
  function FirstIndex(titles: seq<string>, title: string): (r: Option<nat>)
    ensures r.None? <==> title !in titles
    ensures r.Some? ==> r.value < |titles| && titles[r.value] == title
    ensures r.Some? ==> title !in titles[..r.value]
  {
    if |titles| == 0 then None
    else if titles[0] == title then Some(0)
    else
      match FirstIndex(titles[1..], title)
      case None => None
      case Some(k) =>
        assert titles[..k + 1] == [titles[0]] + titles[1..][..k];
        Some(k + 1)
  }

  /** One row of scores per movie, one score per movie in each row. */
  predicate Square(similarity: seq<seq<real>>, n: nat) {
    |similarity| == n && forall i :: 0 <= i < n ==> |similarity[i]| == n
  }

  /** `new_df.iloc[i].title` for each picked position `i`. */
  function TitlesAt(titles: seq<string>, picks: seq<nat>): (r: seq<string>)
    requires forall i :: 0 <= i < |picks| ==> picks[i] < |titles|
    ensures |r| == |picks|
    ensures forall i :: 0 <= i < |picks| ==> r[i] == titles[picks[i]]
  {
    seq(|picks|, i requires 0 <= i < |picks| => titles[picks[i]])
  }

  /** `recommend` with the movie's row taken by position in the table. */
  function Recommend(titles: seq<string>, similarity: seq<seq<real>>, movie: string): (r: Result<seq<string>>)
    requires Square(similarity, |titles|)
    ensures r.Err? <==> movie !in titles
    ensures r.Err? ==> r.error == TitleNotFound(movie)
    ensures r.Ok? ==> |r.value| == if |titles| <= 1 then 0 else Min(5, |titles| - 1)
    ensures forall k :: 0 <= k < |titles| && titles[k] == movie && movie !in titles[..k] ==>
      r == Ok(TitlesAt(titles, TopFive(similarity[k])))
  {
    match FirstIndex(titles, movie)
    case None => Err(TitleNotFound(movie))
    case Some(k) =>
      FirstMatchIsUnique(titles, movie, k);
      Ok(TitlesAt(titles, TopFive(similarity[k])))
  }

  /** Only one position is the first occurrence of a title. */
  lemma FirstMatchIsUnique(titles: seq<string>, movie: string, k: nat)
    requires k < |titles| && titles[k] == movie && movie !in titles[..k]
    ensures forall j :: 0 <= j < |titles| && titles[j] == movie && movie !in titles[..j] ==> j == k
  {
  }

  /** The queried movie itself comes back when its own score is the highest
      in its row and one earlier movie ties with it: that movie takes place 0
      and the query place 1. */
  lemma QueryReturnedOnTie()
    ensures Recommend(["X", "Y"], [[1.0, 1.0], [1.0, 1.0]], "Y") == Ok(["Y"])
  {
    var titles := ["X", "Y"];
    var similarity: seq<seq<real>> := [[1.0, 1.0], [1.0, 1.0]];
    var row := similarity[1];
    assert titles[..1] == ["X"];
    assert Ranked(row, [0, 1]);
    TopFiveOfAnyStableSort(row, [0, 1]);
    assert TopFive(row) == [1];
    assert TitlesAt(titles, [1]) == ["Y"];
    assert Recommend(titles, similarity, "Y") == Ok(TitlesAt(titles, TopFive(row)));
  }

  /** Seven equal scores rank in table order, so places 1 to 5 hold the
      indices 1 to 5. */
  lemma SevenTiesTopFive()
    ensures TopFive(seq(7, j => 1.0)) == [1, 2, 3, 4, 5]
  {
    var row: seq<real> := seq(7, j => 1.0);
    var order: seq<nat> := [0, 1, 2, 3, 4, 5, 6];
    assert forall i :: 0 <= i < 7 ==> row[i] == 1.0;
    assert Ranked(row, order);
    assert forall y: nat :: y in order <==> y < |row|;
    TopFiveOfAnyStableSort(row, order);
  }

  /** Behind six earlier movies that tie with it, the query is at place 6 and
      falls outside the slice: with seven equal scores the last movie is not
      recommended, not even to itself. */
  lemma QueryDroppedBehindSixTies()
    ensures var titles := ["A", "B", "C", "D", "E", "F", "G"];
      Recommend(titles, seq(7, i => seq(7, j => 1.0)), "G") == Ok(["B", "C", "D", "E", "F"])
  {
    var titles := ["A", "B", "C", "D", "E", "F", "G"];
    var similarity: seq<seq<real>> := seq(7, i => seq(7, j => 1.0));
    assert similarity[6] == seq(7, j => 1.0);
    SevenTiesTopFive();
    assert titles[..6] == ["A", "B", "C", "D", "E", "F"];
    assert TitlesAt(titles, [1, 2, 3, 4, 5]) == ["B", "C", "D", "E", "F"];
    assert Recommend(titles, similarity, "G") == Ok(TitlesAt(titles, TopFive(similarity[6])));
  }

  // ---------------------------------------------------------------------
  // The lookup as written: the row label used as a matrix position
  // ---------------------------------------------------------------------

  /** `recommend` as the script writes it: `.index[0]` yields the row's
      label, which is then used as a position into the similarity matrix,
      while the titles are fetched by position. */
  function RecommendByLabel(labels: seq<nat>, titles: seq<string>, similarity: seq<seq<real>>,
                            movie: string): (r: Result<seq<string>>)
    requires |labels| == |titles|
    requires Square(similarity, |titles|)
    ensures movie !in titles ==> r == Err(TitleNotFound(movie))
    ensures forall k :: 0 <= k < |titles| && titles[k] == movie && movie !in titles[..k] ==>
      r == if labels[k] < |titles| then Ok(TitlesAt(titles, TopFive(similarity[labels[k]])))
           else Err(RowOutOfRange(labels[k]))
  {
    match FirstIndex(titles, movie)
    case None => Err(TitleNotFound(movie))
    case Some(k) =>
      FirstMatchIsUnique(titles, movie, k);
      var row := labels[k];
      if row < |similarity| then Ok(TitlesAt(titles, TopFive(similarity[row])))
      else Err(RowOutOfRange(row))
  }

  /** With no row dropped the labels are the positions and both lookups agree. */
  lemma LabelsAgreeWhenNoRowDropped(labels: seq<nat>, titles: seq<string>,
                                    similarity: seq<seq<real>>, movie: string)
    requires |labels| == |titles|
    requires forall i :: 0 <= i < |labels| ==> labels[i] == i
    requires Square(similarity, |titles|)
    ensures RecommendByLabel(labels, titles, similarity, movie) == Recommend(titles, similarity, movie)
  {
  }

  /** The titles and scores of a three-movie table whose second source row
      was dropped, so its labels are 0, 2 and 3. */
  function DroppedTitles(): seq<string> { ["A", "B", "C"] }
  function DroppedLabels(): seq<nat> { [0, 2, 3] }
  function DroppedSimilarity(): seq<seq<real>> {
    [[1.0, 0.5, 0.0], [0.5, 1.0, 0.2], [0.0, 0.2, 1.0]]
  }

  /** The ranking of the row of "B": itself, then "A", then "C". */
  lemma RowOfBRanking()
    ensures TopFive(DroppedSimilarity()[1]) == [0, 2]
  {
    var row := DroppedSimilarity()[1];
    assert row == [0.5, 1.0, 0.2];
    assert Ranked(row, [1, 0, 2]);
    TopFiveOfAnyStableSort(row, [1, 0, 2]);
  }

  /** The ranking of the row of "C": itself, then "B", then "A". */
  lemma RowOfCRanking()
    ensures TopFive(DroppedSimilarity()[2]) == [1, 0]
  {
    var row := DroppedSimilarity()[2];
    assert row == [0.0, 0.2, 1.0];
    assert Ranked(row, [2, 1, 0]);
    TopFiveOfAnyStableSort(row, [2, 1, 0]);
  }

  /** Looked up by position, "B" is ranked by its own row. */
  lemma PositionLookupOfB()
    ensures Recommend(DroppedTitles(), DroppedSimilarity(), "B") == Ok(["A", "C"])
  {
    var titles := DroppedTitles();
    assert titles[..1] == ["A"];
    assert FirstIndex(titles, "B") == Some(1);
    RowOfBRanking();
    assert TitlesAt(titles, [0, 2]) == ["A", "C"];
  }

  /** Looked up by label, "B" is ranked by the row of "C" and is itself
      among the results. */
  lemma LabelLookupOfBUsesRowOfC()
    ensures RecommendByLabel(DroppedLabels(), DroppedTitles(), DroppedSimilarity(), "B") == Ok(["B", "A"])
  {
    var titles := DroppedTitles();
    assert titles[..1] == ["A"];
    assert FirstIndex(titles, "B") == Some(1);
    assert DroppedLabels()[1] == 2;
    RowOfCRanking();
    assert TitlesAt(titles, [1, 0]) == ["B", "A"];
  }

  /** Looked up by label, "C" runs off the end of the matrix. */
  lemma LabelLookupOfCFails()
    ensures RecommendByLabel(DroppedLabels(), DroppedTitles(), DroppedSimilarity(), "C") == Err(RowOutOfRange(3))
  {
  }
}
