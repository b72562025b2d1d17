/** Search-query builders of the hashtag and keyword producers
    (get_hashtag_query, get_keyword_query). The monitoring section of the prompt
    template file is passed in; random.choice becomes a chosen index. */
module MonitorQueries {
  import opened Common
  import opened Text

  const OrSeparator := " OR "
  const LanguageFilter := " lang:en"

  /** One entry of monitoring.keywords, in the file's key order. */
  datatype KeywordCategory = KeywordCategory(name: string, keywords: seq<string>)

  function Quoted(keyword: string): string {
    "\"" + keyword + "\""
  }

  function QuotedAll(keywords: seq<string>): (r: seq<string>)
    ensures |r| == |keywords|
    ensures forall i :: 0 <= i < |keywords| ==> r[i] == Quoted(keywords[i])
  {
    seq(|keywords|, i requires 0 <= i < |keywords| => Quoted(keywords[i]))
  }

  /** get_hashtag_query: the hashtags joined by " OR ". None stands for the KeyError
      raised when the monitoring section has no "hashtags" entry. */
  function HashtagQuery(hashtags: Option<seq<string>>): (r: Option<string>)
    ensures r.Some? <==> hashtags.Some?
  {
    match hashtags
    case None => None
    case Some(tags) => Some(Join(tags, OrSeparator))
  }

  /** Every hashtag appears in the query at its own offset, the hashtags are separated
      by " OR ", and nothing follows the last one. */
  lemma HashtagQueryLayout(tags: seq<string>, k: nat)
    requires k < |tags|
    ensures var q := HashtagQuery(Some(tags)).value;
      && OccursAt(q, tags[k], PartOffset(tags, OrSeparator, k))
      && (k + 1 < |tags| ==> OccursAt(q, OrSeparator, PartOffset(tags, OrSeparator, k) + |tags[k]|))
      && (k + 1 == |tags| ==> PartOffset(tags, OrSeparator, k) + |tags[k]| == |q|)
  {
    JoinLayout(tags, OrSeparator, k);
  }

  /** get_keyword_query: ("", "") when there are no keyword categories; otherwise the
      keywords of the chosen category, each in double quotes, joined by " OR ", followed
      by " lang:en", paired with the category's name. */
  function KeywordQuery(categories: seq<KeywordCategory>, choice: nat): (r: (string, string))
    requires |categories| == 0 || choice < |categories|
    ensures |categories| == 0 <==> r == ("", "")
    ensures |categories| > 0 ==> r.1 == categories[choice].name
    ensures |categories| > 0 ==> |r.0| >= |LanguageFilter| && r.0[|r.0| - |LanguageFilter|..] == LanguageFilter
  {
    if |categories| == 0 then ("", "")
    else
      var chosen := categories[choice];
      (Join(QuotedAll(chosen.keywords), OrSeparator) + LanguageFilter, chosen.name)
  }

  /** Each keyword of the chosen category appears in the query wrapped in double quotes,
      consecutive quoted keywords are separated by " OR ", and the last is followed by
      the language filter. */
  lemma KeywordQueryLayout(categories: seq<KeywordCategory>, choice: nat, k: nat)
    requires choice < |categories|
    requires k < |categories[choice].keywords|
    ensures var keywords := categories[choice].keywords;
      var q := KeywordQuery(categories, choice).0;
      var at := PartOffset(QuotedAll(keywords), OrSeparator, k);
      && OccursAt(q, Quoted(keywords[k]), at)
      && (k + 1 < |keywords| ==> OccursAt(q, OrSeparator, at + |Quoted(keywords[k])|))
      && (k + 1 == |keywords| ==> OccursAt(q, LanguageFilter, at + |Quoted(keywords[k])|))
  {
    var parts := QuotedAll(categories[choice].keywords);
    assert KeywordQuery(categories, choice).0 == Join(parts, OrSeparator) + LanguageFilter;
    JoinThenSuffixLayout(parts, OrSeparator, LanguageFilter, k);
  }
}
