/**
 * The browser client's view of a post and the pure logic it applies to the
 * fetched collection: the status counters shown above the table
 * (`updateStats`), the CSS class of a status badge (`getStatusClass`), the
 * flag glyph shown beside a country code (`getCountryFlag`) and the lookup of
 * a cached post by id (`allPosts.find`).
 */
module ClientPosts {
  import opened Wrappers
  import opened Text

  /** A post as the backend returns it; `created_at` is only ever formatted for display. */
  datatype Post = Post(
    id: int,
    postId: string,
    platform: string,
    country: string,
    status: string,
    imageUrl: Option<string>)

  /** The three statuses the dashboard recognises, and everything else. */
  datatype StatusKind = Available | OnHold | Sold | Unrecognised

  /** The `switch` on `status.toLowerCase()`: a recognised status is its word up to case. */
  function StatusOf(status: string): (k: StatusKind)
    ensures k == Available ==> EqualIgnoringCase(status, "available")
    ensures k == OnHold ==> EqualIgnoringCase(status, "on hold")
    ensures k == Sold ==> EqualIgnoringCase(status, "sold")
  {
    LowerIsIgnoringCase(status, "available");
    LowerIsIgnoringCase(status, "on hold");
    LowerIsIgnoringCase(status, "sold");
    var s := Lower(status);
    if s == "available" then Available
    else if s == "on hold" then OnHold
    else if s == "sold" then Sold
    else Unrecognised
  }

  /** Each recognised status matches its word whatever the case of its letters. */
  lemma StatusMatchingIgnoresCase(status: string)
    ensures StatusOf(status) == Available <==> EqualIgnoringCase(status, "available")
    ensures StatusOf(status) == OnHold <==> EqualIgnoringCase(status, "on hold")
    ensures StatusOf(status) == Sold <==> EqualIgnoringCase(status, "sold")
  {
    LowerIsIgnoringCase(status, "available");
    LowerIsIgnoringCase(status, "on hold");
    LowerIsIgnoringCase(status, "sold");
  }

  /** Two statuses that differ only in case are classified alike. */
  lemma StatusOfIgnoresCase(s: string, t: string)
    requires EqualIgnoringCase(s, t)
    ensures StatusOf(s) == StatusOf(t)
  {
    LowerRespectsCase(s, t);
  }

  /** "Available", "AVAILABLE" and "available" all count as available. */
  lemma AvailableSpellings()
    ensures StatusOf("Available") == Available
    ensures StatusOf("AVAILABLE") == Available
    ensures StatusOf("available") == Available
  {
    assert EqualIgnoringCase("Available", "available");
    assert EqualIgnoringCase("AVAILABLE", "available");
    assert EqualIgnoringCase("available", "available");
    StatusMatchingIgnoresCase("Available");
    StatusMatchingIgnoresCase("AVAILABLE");
    StatusMatchingIgnoresCase("available");
  }

  /** "On Hold" counts as on hold and "SOLD" as sold. */
  lemma OnHoldAndSoldSpellings()
    ensures StatusOf("On Hold") == OnHold
    ensures StatusOf("SOLD") == Sold
  {
    assert EqualIgnoringCase("On Hold", "on hold");
    assert EqualIgnoringCase("SOLD", "sold");
    StatusMatchingIgnoresCase("On Hold");
    StatusMatchingIgnoresCase("SOLD");
  }

  /** "Pending" and "onhold" (no space) count only towards the total. */
  lemma UnrecognisedSpellings()
    ensures StatusOf("Pending") == Unrecognised
    ensures StatusOf("onhold") == Unrecognised
  {
    assert Lower("Pending")[0] == 'p';
    assert |Lower("onhold")| == 6;
  }

  // ---------------------------------------------------------------------
  // updateStats

  /** The accumulator of the `reduce`. */
  datatype Stats = Stats(total: nat, available: nat, onHold: nat, sold: nat)

  /** How many posts of `posts` have a status of kind `k`, counted from the front. */
  function Count(posts: seq<Post>, k: StatusKind): (n: nat)
    ensures n <= |posts|
  {
    if posts == [] then 0
    else (if StatusOf(posts[0].status) == k then 1 else 0) + Count(posts[1..], k)
  }

  /** One step of the `reduce`: the accumulator after one more post. */
  function Tally(acc: Stats, post: Post): (r: Stats)
    ensures r.total == acc.total + 1
    ensures acc.available <= r.available && acc.onHold <= r.onHold && acc.sold <= r.sold
    ensures (r.available - acc.available) + (r.onHold - acc.onHold) + (r.sold - acc.sold) <= 1
    ensures StatusOf(post.status) == Unrecognised ==> r == acc.(total := acc.total + 1)
  {
    var t := acc.(total := acc.total + 1);
    match StatusOf(post.status)
    case Available => t.(available := t.available + 1)
    case OnHold => t.(onHold := t.onHold + 1)
    case Sold => t.(sold := t.sold + 1)
    case Unrecognised => t
  }

  /** The counters after reducing `posts` from left to right, starting from zero. */
  function CountStats(posts: seq<Post>): (s: Stats)
    ensures s.total == |posts|
    ensures s.available + s.onHold + s.sold <= s.total
    decreases |posts|
  {
    if posts == [] then Stats(0, 0, 0, 0)
    else Tally(CountStats(posts[..|posts| - 1]), posts[|posts| - 1])
  }

  /**
   * `updateStats`: the `reduce` over the fetched posts. The accumulator is a
   * record whose fields are bumped one at a time, as `acc.total++` and the
   * `switch` do.
   */
  method UpdateStats(posts: seq<Post>) returns (stats: Stats)
    ensures stats == CountStats(posts)
    ensures stats.total == |posts|
  {
    stats := Stats(0, 0, 0, 0);
    for i := 0 to |posts|
      invariant stats == CountStats(posts[..i])
    {
      assert posts[..i + 1][..i] == posts[..i];
      stats := stats.(total := stats.total + 1);
      var kind := StatusOf(posts[i].status);
      if kind == Available {
        stats := stats.(available := stats.available + 1);
      } else if kind == OnHold {
        stats := stats.(onHold := stats.onHold + 1);
      } else if kind == Sold {
        stats := stats.(sold := stats.sold + 1);
      }
    }
    assert posts[..|posts|] == posts;
  }

  /** Counting a post appended at the end adds one for its own kind only. */
  lemma {:induction false} CountSnoc(posts: seq<Post>, p: Post, k: StatusKind)
    ensures Count(posts + [p], k) == Count(posts, k) + (if StatusOf(p.status) == k then 1 else 0)
    decreases |posts|
  {
    if posts == [] {
      assert [p][1..] == [];
    } else {
      assert (posts + [p])[1..] == posts[1..] + [p];
      CountSnoc(posts[1..], p, k);
    }
  }

  /** Each counter of `updateStats` is the number of posts of its kind. */
  lemma {:induction false} CountStatsCountsKinds(posts: seq<Post>)
    ensures CountStats(posts).available == Count(posts, Available)
    ensures CountStats(posts).onHold == Count(posts, OnHold)
    ensures CountStats(posts).sold == Count(posts, Sold)
    decreases |posts|
  {
    if posts != [] {
      var init, last := posts[..|posts| - 1], posts[|posts| - 1];
      assert posts == init + [last];
      CountStatsCountsKinds(init);
      CountSnoc(init, last, Available);
      CountSnoc(init, last, OnHold);
      CountSnoc(init, last, Sold);
    }
  }

  /** Every post has exactly one kind, so the four kinds partition the collection. */
  lemma {:induction false} KindsPartition(posts: seq<Post>)
    ensures Count(posts, Available) + Count(posts, OnHold) + Count(posts, Sold)
            + Count(posts, Unrecognised) == |posts|
    decreases |posts|
  {
    if posts != [] {
      KindsPartition(posts[1..]);
    }
  }

  /**
   * The counters add up: available + on hold + sold + the posts whose status
   * is none of those equals the total, which is the number of posts.
   */
  lemma StatsPartition(posts: seq<Post>)
    ensures CountStats(posts).total == |posts|
    ensures CountStats(posts).available + CountStats(posts).onHold + CountStats(posts).sold
            + Count(posts, Unrecognised) == CountStats(posts).total
  {
    CountStatsCountsKinds(posts);
    KindsPartition(posts);
  }

  /** Field-wise sum of two sets of counters. */
  function Add(a: Stats, b: Stats): Stats {
    Stats(a.total + b.total, a.available + b.available, a.onHold + b.onHold, a.sold + b.sold)
  }

  /** The counters of a concatenation are the sums of the counters of its parts. */
  lemma {:induction false} CountStatsAppend(a: seq<Post>, b: seq<Post>)
    ensures CountStats(a + b) == Add(CountStats(a), CountStats(b))
    decreases |b|
  {
    if b == [] {
      assert a + b == a;
      assert CountStats(b) == Stats(0, 0, 0, 0);
      AddZero(CountStats(a));
    } else {
      var init, last := b[..|b| - 1], b[|b| - 1];
      assert (a + b)[..|a + b| - 1] == a + init;
      assert (a + b)[|a + b| - 1] == last;
      calc {
        CountStats(a + b);
        Tally(CountStats(a + init), last);
        { CountStatsAppend(a, init); }
        Tally(Add(CountStats(a), CountStats(init)), last);
        { TallyAdd(CountStats(a), CountStats(init), last); }
        Add(CountStats(a), Tally(CountStats(init), last));
        Add(CountStats(a), CountStats(b));
      }
    }
  }

  /** Adding zero counters changes nothing. */
  lemma AddZero(x: Stats)
    ensures Add(x, Stats(0, 0, 0, 0)) == x
  {
  }

  /** The order in which counters are added does not matter. */
  lemma AddSwap(x: Stats, y: Stats, z: Stats)
    ensures Add(Add(x, y), z) == Add(Add(x, z), y)
  {
  }

  /** Tallying a post onto a sum tallies it onto the second summand. */
  lemma TallyAdd(x: Stats, y: Stats, p: Post)
    ensures Tally(Add(x, y), p) == Add(x, Tally(y, p))
  {
  }

  /** Taking out the element at `j` takes one copy of it out of the multiset. */
  lemma RemoveAt(b: seq<Post>, j: nat)
    requires j < |b|
    ensures b == b[..j] + [b[j]] + b[j + 1..]
    ensures multiset(b[..j] + b[j + 1..]) == multiset(b) - multiset{b[j]}
  {
    assert b == b[..j] + [b[j]] + b[j + 1..];
  }

  /** The counters do not depend on the order in which the backend lists the posts. */
  lemma {:induction false} CountStatsPermutation(a: seq<Post>, b: seq<Post>)
    requires multiset(a) == multiset(b)
    ensures CountStats(a) == CountStats(b)
    decreases |a|
  {
    if a == [] {
      assert |b| == |multiset(b)| == 0;
    } else {
      var init, last := a[..|a| - 1], a[|a| - 1];
      RemoveAt(a, |a| - 1);
      assert last in multiset(b);
      var j :| 0 <= j < |b| && b[j] == last;
      var before, after := b[..j], b[j + 1..];
      RemoveAt(b, j);
      CountStatsPermutation(init, before + after);
      var one := CountStats([last]);
      calc {
        CountStats(a);
        { CountStatsAppend(init, [last]); }
        Add(CountStats(init), one);
        Add(CountStats(before + after), one);
        { CountStatsAppend(before, after); }
        Add(Add(CountStats(before), CountStats(after)), one);
        { AddSwap(CountStats(before), CountStats(after), one); }
        Add(Add(CountStats(before), one), CountStats(after));
        { CountStatsAppend(before, [last]); }
        Add(CountStats(before + [last]), CountStats(after));
        { CountStatsAppend(before + [last], after); }
        CountStats(b);
      }
    }
  }

  /** A single available post shows as total 1, available 1, on hold 0, sold 0. */
  lemma OneAvailablePost(p: Post)
    requires p.status == "Available"
    ensures CountStats([p]) == Stats(1, 1, 0, 0)
  {
    assert [p][..0] == [];
    AvailableSpellings();
  }

  // ---------------------------------------------------------------------
  // getStatusClass

  /** The CSS class of a status badge. */
  function StatusClass(status: string): (r: string)
    ensures r in {"status-available", "status-on-hold", "status-sold"}
    ensures r == "status-on-hold" <==> StatusOf(status) == OnHold
    ensures r == "status-sold" <==> StatusOf(status) == Sold
    ensures r == "status-available" <==> StatusOf(status) in {Available, Unrecognised}
  {
    match StatusOf(status)
    case OnHold => "status-on-hold"
    case Sold => "status-sold"
    case _ => "status-available"
  }

  /** An unrecognised status is drawn as available but is not counted as available. */
  lemma UnrecognisedDrawnAsAvailable(p: Post)
    requires StatusOf(p.status) == Unrecognised
    ensures StatusClass(p.status) == "status-available"
    ensures CountStats([p]) == Stats(1, 0, 0, 0)
  {
    assert [p][..0] == [];
  }

  // ---------------------------------------------------------------------
  // getCountryFlag

  /** The country codes that have a flag of their own. */
  const FlagCodes: set<string> := {"US", "PK", "IN", "UK", "CA"}

  /** The globe shown for any other code. */
  const Globe: string := "\U{1F30D}"

  /** The regional indicator symbol for an upper-case ASCII letter. */
  function RegionalIndicator(c: char): (r: char)
    requires 'A' <= c <= 'Z'
    ensures 0x1F1E6 <= r as int <= 0x1F1FF
  {
    (0x1F1E6 + (c as int - 'A' as int)) as char
  }

  /** The flag of a two-letter region: its two regional indicator symbols. */
  function RegionFlag(region: string): (r: string)
    requires |region| == 2 && 'A' <= region[0] <= 'Z' && 'A' <= region[1] <= 'Z'
    ensures |r| == 2
  {
    [RegionalIndicator(region[0]), RegionalIndicator(region[1])]
  }

  /** `getCountryFlag` with the lookup restricted to the table's own entries. */
  function CountryFlag(code: string): (r: string)
    ensures code in FlagCodes <==> r != Globe
  {
    if code == "US" then "\U{1F1FA}\U{1F1F8}"
    else if code == "PK" then "\U{1F1F5}\U{1F1F0}"
    else if code == "IN" then "\U{1F1EE}\U{1F1F3}"
    else if code == "UK" then "\U{1F1EC}\U{1F1E7}"
    else if code == "CA" then "\U{1F1E8}\U{1F1E6}"
    else Globe
  }

  /**
   * Each listed code shows its region's flag; "UK" shows the flag of the
   * region "GB". So the five codes show five different flags.
   */
  lemma CountryFlagsAreRegionFlags()
    ensures CountryFlag("US") == RegionFlag("US")
    ensures CountryFlag("PK") == RegionFlag("PK")
    ensures CountryFlag("IN") == RegionFlag("IN")
    ensures CountryFlag("CA") == RegionFlag("CA")
    ensures CountryFlag("UK") == RegionFlag("GB")
    ensures forall a, b :: a in FlagCodes && b in FlagCodes && a != b ==> CountryFlag(a) != CountryFlag(b)
  {
  }

  /** The lookup is case-sensitive: a lower-case code gets the globe. */
  lemma CountryFlagIsCaseSensitive()
    ensures CountryFlag("us") == Globe && CountryFlag("US") != Globe
  {
  }

  /** Property names every JavaScript object inherits from `Object.prototype`; all are truthy. */
  const ObjectPrototypeMembers: set<string> := {
    "constructor", "__proto__", "__defineGetter__", "__defineSetter__",
    "__lookupGetter__", "__lookupSetter__", "hasOwnProperty", "isPrototypeOf",
    "propertyIsEnumerable", "toString", "toLocaleString", "valueOf"}

  /** What `flags[countryCode] || '🌍'` evaluates to: a glyph, or an inherited member. */
  datatype FlagLookup = Glyph(text: string) | PrototypeMember(name: string)

  /**
   * `getCountryFlag` as written: indexing an object literal also finds the
   * members it inherits, and each of those is truthy, so it is returned in
   * place of the globe.
   */
  function CountryFlagAsWritten(code: string): (r: FlagLookup)
    ensures r.PrototypeMember? <==> code !in FlagCodes && code in ObjectPrototypeMembers
  {
    if code in FlagCodes then Glyph(CountryFlag(code))
    else if code in ObjectPrototypeMembers then PrototypeMember(code)
    else Glyph(Globe)
  }

  /** Apart from the inherited member names, the code as written agrees with `CountryFlag`. */
  lemma CountryFlagAsWrittenAgrees(code: string)
    requires code !in ObjectPrototypeMembers
    ensures CountryFlagAsWritten(code) == Glyph(CountryFlag(code))
  {
  }

  /** The country "toString" is shown with a function instead of the globe. */
  lemma CountryFlagAsWrittenToString()
    ensures CountryFlagAsWritten("toString") == PrototypeMember("toString")
    ensures CountryFlag("toString") == Globe
  {
  }

  // ---------------------------------------------------------------------
  // allPosts.find(p => p.id === postId)

  /** The first cached post whose id is `id`, if any. */
  function FindPost(posts: seq<Post>, id: int): (r: Option<Post>)
    ensures r.None? <==> forall i :: 0 <= i < |posts| ==> posts[i].id != id
    ensures r.Some? ==> exists i :: 0 <= i < |posts| && posts[i] == r.value && r.value.id == id
                                    && forall j :: 0 <= j < i ==> posts[j].id != id
  {
    if posts == [] then None
    else if posts[0].id == id then Some(posts[0])
    else
      var r := FindPost(posts[1..], id);
      assert forall i :: 1 <= i < |posts| ==> posts[i] == posts[1..][i - 1];
      r
  }
}
