/** The used_categories bookkeeping of the keyword producer (monitor_keywords). */
module KeywordRotation {
  import opened Common

  /** The used-categories list after a cycle that chose `category`, when the
      monitoring section lists `total` keyword categories. A new category is appended;
      once the list reaches `total` entries it restarts as [category]. */
  function TrackCategory(used: seq<string>, category: string, total: int): (r: seq<string>)
    ensures category in r
    ensures category in used ==> r == used
    ensures category !in used ==> r == used + [category] || r == [category]
    ensures NoDuplicates(used) ==> NoDuplicates(r)
    ensures total >= 2 && |used| < total ==> |r| < total
  {
    if category in used then used
    else
      var appended := used + [category];
      if |appended| >= total then [category] else appended
  }

  /** The keyword producer's rotation state. categoryCount is read once, when the
      producer starts, from the monitoring section's "keywords" entry. */
  class CategoryRotation {
    const categoryCount: int
    var used: seq<string>

    ghost predicate Valid()
      reads this
    {
      NoDuplicates(used) && (categoryCount >= 2 ==> |used| < categoryCount)
    }

    constructor (categoryCount: int)
      ensures Valid()
      ensures this.categoryCount == categoryCount && used == []
    {
      this.categoryCount := categoryCount;
      used := [];
    }

    /** One cycle's update, after get_keyword_query chose `category`. */
    method Track(category: string)
      requires Valid()
      modifies this
      ensures Valid()
      ensures used == TrackCategory(old(used), category, categoryCount)
      ensures category in used
    {
      if category !in used {
        used := used + [category];
        if |used| >= categoryCount {
          used := [category];
        }
      }
    }
  }
}
