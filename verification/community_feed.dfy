/** The community feed page: the local upvote toggle and the four sort
    orders of the feed. */
module CommunityFeed {
  import opened Sorting

  /** A feed entry. Dates are instants in milliseconds; the distance is an
      integer (for instance metres). */
  datatype FeedItem = FeedItem(id: int, title: string, upvotes: int, isUpvoted: bool, createdAt: int, distance: int)

  /** The caller's own vote as a number. */
  function OwnVote(item: FeedItem): int {
    if item.isUpvoted then 1 else 0
  }

  /** Flip one entry's vote, adjusting its count by one in the matching
      direction. */
  function Toggle(item: FeedItem): (t: FeedItem)
    ensures t.isUpvoted == !item.isUpvoted
    ensures t.upvotes == (if item.isUpvoted then item.upvotes - 1 else item.upvotes + 1)
    ensures t.(isUpvoted := item.isUpvoted, upvotes := item.upvotes) == item
    ensures t.upvotes - OwnVote(t) == item.upvotes - OwnVote(item)
  {
    item.(isUpvoted := !item.isUpvoted, upvotes := if item.isUpvoted then item.upvotes - 1 else item.upvotes + 1)
  }

  /** `handleUpvote`: toggle every entry carrying `reportId`; every other
      entry is returned as it was, in place. */
  function ToggleUpvote(items: seq<FeedItem>, reportId: int): (r: seq<FeedItem>)
    ensures |r| == |items|
    ensures forall k :: 0 <= k < |items| && items[k].id == reportId ==>
      r[k].isUpvoted == !items[k].isUpvoted
      && r[k].upvotes == items[k].upvotes + (if items[k].isUpvoted then -1 else 1)
      && r[k].(isUpvoted := items[k].isUpvoted, upvotes := items[k].upvotes) == items[k]
    ensures forall k :: 0 <= k < |items| && items[k].id != reportId ==> r[k] == items[k]
  {
    seq(|items|, k requires 0 <= k < |items| => if items[k].id == reportId then Toggle(items[k]) else items[k])
  }

  /** Toggling the same id twice restores the feed. */
  lemma ToggleTwice(items: seq<FeedItem>, reportId: int)
    ensures ToggleUpvote(ToggleUpvote(items, reportId), reportId) == items
  {
    var once := ToggleUpvote(items, reportId);
    var twice := ToggleUpvote(once, reportId);
    forall k | 0 <= k < |items| ensures twice[k] == items[k] {
      if items[k].id == reportId {
        assert twice[k] == Toggle(Toggle(items[k]));
      }
    }
  }

  /** Toggles of different entries do not interfere: their order does not
      matter. */
  lemma TogglesCommute(items: seq<FeedItem>, a: int, b: int)
    ensures ToggleUpvote(ToggleUpvote(items, a), b) == ToggleUpvote(ToggleUpvote(items, b), a)
  {
  }

  /** Everyone else's votes are untouched: the count minus the caller's own
      vote stays the same on every entry. */
  lemma ToggleKeepsOthersVotes(items: seq<FeedItem>, reportId: int, k: int)
    requires 0 <= k < |items|
    ensures ToggleUpvote(items, reportId)[k].upvotes - OwnVote(ToggleUpvote(items, reportId)[k])
         == items[k].upvotes - OwnVote(items[k])
  {
  }

  const NEAR_ME: string := "nearMe"
  const MOST_UPVOTED: string := "mostUpvoted"
  const NEWEST: string := "newest"
  const OLDEST: string := "oldest"

  function Distance(item: FeedItem): int { item.distance }
  function Upvotes(item: FeedItem): int { item.upvotes }
  function CreatedAt(item: FeedItem): int { item.createdAt }

  /** `sortedReports`: a sorted copy of the feed. Nearest first, most
      upvoted first, newest first or oldest first; an unknown order compares
      everything as equal, which a stable sort leaves as it is. */
  function SortFeed(items: seq<FeedItem>, sortBy: string): (r: seq<FeedItem>)
    ensures multiset(r) == multiset(items)
    ensures sortBy == "nearMe" ==> NonDecreasing(r, Distance)
    ensures sortBy == "mostUpvoted" ==> NonIncreasing(r, Upvotes)
    ensures sortBy == "newest" ==> NonIncreasing(r, CreatedAt)
    ensures sortBy == "oldest" ==> NonDecreasing(r, CreatedAt)
    ensures sortBy !in {"nearMe", "mostUpvoted", "newest", "oldest"} ==> r == items
  {
    if sortBy == NEAR_ME then SortAscending(items, Distance)
    else if sortBy == MOST_UPVOTED then SortDescending(items, Upvotes)
    else if sortBy == NEWEST then SortDescending(items, CreatedAt)
    else if sortBy == OLDEST then SortAscending(items, CreatedAt)
    else items
  }

  /** Newest-first and oldest-first put the same entries in opposite date
      orders: reversing one gives a date order the other accepts. */
  lemma NewestReversedIsOldestOrder(items: seq<FeedItem>)
    ensures NonDecreasing(Reverse(SortFeed(items, "newest")), CreatedAt)
    ensures multiset(Reverse(SortFeed(items, "newest"))) == multiset(SortFeed(items, "oldest"))
  {
    var s := SortFeed(items, "newest");
    ReverseKeeps(s);
  }

  function Reverse<T>(s: seq<T>): (r: seq<T>)
    ensures |r| == |s|
    ensures forall i :: 0 <= i < |s| ==> r[i] == s[|s| - 1 - i]
  {
    seq(|s|, i requires 0 <= i < |s| => s[|s| - 1 - i])
  }

  lemma {:induction false} ReverseKeeps<T>(s: seq<T>)
    ensures multiset(Reverse(s)) == multiset(s)
    decreases |s|
  {
    if |s| > 0 {
      var init := s[..|s| - 1];
      ReverseKeeps(init);
      assert Reverse(s) == [s[|s| - 1]] + Reverse(init);
      assert s == init + [s[|s| - 1]];
    }
  }
}
