/**
 * The tag generator of src/utils/tagService.ts: the fixed category table, the match
 * count per category accumulated in a `Map`, the stable descending sort of that map's
 * entries, and the cached list of all category ids.
 */
module TagService {
  import opened Wrappers
  import CE = ClassEngine

  /** A category: its id and the keywords that vote for it. */
  datatype TagConfig = TagConfig(id: string, keywords: seq<string>)

  /** `TAG_CONFIGS`, in declaration order; `other` has no keywords. */
  const TagConfigs: seq<TagConfig> := [
    TagConfig("identity_card", ["居民身份证", "身份证", "公民身份", "ID Card", "Identity Card"]),
    TagConfig("driver_license", ["驾驶证", "机动车驾驶证", "Driver License", "Driving License"]),
    TagConfig("passport", ["护照", "Passport", "PASSPORT", "中华人民共和国护照"]),
    TagConfig("business_license", ["营业执照", "工商营业执照", "Business License", "统一社会信用代码"]),
    TagConfig("residence_permit", ["居住证", "暂住证", "Residence Permit"]),
    TagConfig("student_id", ["学生证", "Student ID", "学生卡"]),
    TagConfig("employee_id", ["工作证", "员工证", "Employee ID", "职工证"]),
    TagConfig("bank_card", ["银行卡", "储蓄卡", "信用卡", "Bank Card", "Credit Card", "Debit Card"]),
    TagConfig("social_security_card", ["社保卡", "社会保障卡", "Social Security Card"]),
    TagConfig("medical_insurance_card", ["医保卡", "医疗保险卡", "Medical Insurance Card"]),
    TagConfig("contract", ["合同", "协议", "Contract", "Agreement", "合作协议", "服务合同"]),
    TagConfig("report", ["报告", "分析报告", "Report", "调研报告", "工作报告", "研究报告"]),
    TagConfig("notice", ["公告", "通知", "Notice", "声明", "公示"]),
    TagConfig("resume", ["简历", "履历", "Resume", "CV", "个人简历"]),
    TagConfig("transcript", ["成绩单", "Transcript", "学习成绩", "考试成绩"]),
    TagConfig("other", [])
  ]

  /** The default similarity threshold of `checkKeywords`. */
  const Threshold: real := 0.7

  /** The tag returned when nothing matches and the caller gives no default. */
  const DefaultTags: seq<string> := ["other"]

  /** The ids of a list of categories, in order. */
  function Ids(configs: seq<TagConfig>): (r: seq<string>)
    ensures |r| == |configs|
    ensures forall i :: 0 <= i < |configs| ==> r[i] == configs[i].id
  {
    seq(|configs|, i requires 0 <= i < |configs| => configs[i].id)
  }

  /** No two categories share an id. */
  predicate DistinctIds(configs: seq<TagConfig>) {
    forall i, j :: 0 <= i < j < |configs| ==> configs[i].id != configs[j].id
  }

  /** `!text?.trim()`: the text holds nothing but white space. */
  predicate IsBlank(text: string) {
    forall i :: 0 <= i < |text| ==> CE.IsWhitespace(text[i])
  }

  // ---------------------------------------------------------------------------
  // The score map
  // ---------------------------------------------------------------------------

  /** One entry of the `Map<string, number>` of scores. */
  datatype Entry = Entry(id: string, count: nat)

  /** The entries of a map, in insertion order, with no key twice. */
  predicate DistinctKeys(m: seq<Entry>) {
    forall i, j :: 0 <= i < j < |m| ==> m[i].id != m[j].id
  }

  /** The keys of a map, in insertion order. */
  function Keys(m: seq<Entry>): (r: seq<string>)
    ensures |r| == |m|
    ensures forall i :: 0 <= i < |m| ==> r[i] == m[i].id
  {
    if m == [] then [] else [m[0].id] + Keys(m[1..])
  }

  /** `scores.get(k) || 0`. */
  function MapGet(m: seq<Entry>, k: string): nat {
    if m == [] then 0 else if m[0].id == k then m[0].count else MapGet(m[1..], k)
  }

  /** `scores.set(k, v)`: an existing key keeps its place, a new key goes last. */
  function MapSet(m: seq<Entry>, k: string, v: nat): (r: seq<Entry>)
    ensures k in Keys(m) ==> |r| == |m|
    ensures k !in Keys(m) ==> r == m + [Entry(k, v)]
  {
    if m == [] then [Entry(k, v)]
    else if m[0].id == k then [Entry(k, v)] + m[1..]
    else [m[0]] + MapSet(m[1..], k, v)
  }

  /** The keywords of `config` that `checkKeywords` reports for `text`. */
  function MatchCount(text: string, config: TagConfig): nat {
    |CE.MatchedKeywords(CE.Normalize(text), config.keywords, Threshold)|
  }

  /** The match count of every category for `text`. */
  function Counts(text: string): TagConfig -> nat {
    config => MatchCount(text, config)
  }

  /** One step of the `reduce`: a category with keywords and matches adds its count. */
  function ScoreStep(count: TagConfig -> nat, scores: seq<Entry>, config: TagConfig): seq<Entry> {
    if |config.keywords| == 0 then scores
    else
      var n := count(config);
      if n > 0 then MapSet(scores, config.id, MapGet(scores, config.id) + n) else scores
  }

  /** The score map after folding `ScoreStep` over `configs` from the left. */
  function Accumulate(count: TagConfig -> nat, configs: seq<TagConfig>): seq<Entry>
    decreases |configs|
  {
    if configs == [] then []
    else ScoreStep(count, Accumulate(count, configs[..|configs| - 1]), configs[|configs| - 1])
  }

  /** The categories that score, in category order, each with its match count. */
  function Scores(count: TagConfig -> nat, configs: seq<TagConfig>): seq<Entry>
    decreases |configs|
  {
    if configs == [] then []
    else
      var c := configs[|configs| - 1];
      Scores(count, configs[..|configs| - 1])
      + (if |c.keywords| > 0 && count(c) > 0 then [Entry(c.id, count(c))] else [])
  }

  /** Every key of `Scores` is the id of one of the categories it was built from. */
  lemma {:induction false} ScoresKeys(count: TagConfig -> nat, configs: seq<TagConfig>)
    ensures forall k :: k in Keys(Scores(count, configs)) ==> exists c :: c in configs && c.id == k
    decreases |configs|
  {
    if configs != [] {
      var init := configs[..|configs| - 1];
      ScoresKeys(count, init);
      forall k | k in Keys(Scores(count, configs))
        ensures exists c :: c in configs && c.id == k
      {
        var i :| 0 <= i < |Keys(Scores(count, configs))| && Keys(Scores(count, configs))[i] == k;
        var s := Scores(count, init);
        if i < |s| {
          assert Scores(count, configs)[i] == s[i];
          assert k in Keys(s);
          var c :| c in init && c.id == k;
          assert c in configs;
        } else {
          assert configs[|configs| - 1] in configs;
        }
      }
    }
  }

  /**
   * With distinct category ids every `get` finds nothing and every `set` appends, so
   * the map holds exactly the scoring categories, in category order, with distinct keys.
   */
  lemma {:induction false} AccumulateIsScores(count: TagConfig -> nat, configs: seq<TagConfig>)
    requires DistinctIds(configs)
    ensures Accumulate(count, configs) == Scores(count, configs)
    ensures DistinctKeys(Scores(count, configs))
    decreases |configs|
  {
    if configs != [] {
      var init := configs[..|configs| - 1];
      var c := configs[|configs| - 1];
      assert DistinctIds(init);
      AccumulateIsScores(count, init);
      var s := Scores(count, init);
      LastIdFresh(count, configs);
      MapGetAbsent(s, c.id);
      if |c.keywords| > 0 && count(c) > 0 {
        AppendFreshKey(s, Entry(c.id, count(c)));
      }
    }
  }

  /** With distinct ids, the last category's id is not a key of the scores before it. */
  lemma LastIdFresh(count: TagConfig -> nat, configs: seq<TagConfig>)
    requires configs != [] && DistinctIds(configs)
    ensures configs[|configs| - 1].id !in Keys(Scores(count, configs[..|configs| - 1]))
  {
    var init := configs[..|configs| - 1];
    var c := configs[|configs| - 1];
    ScoresKeys(count, init);
    forall d | d in init
      ensures d.id != c.id
    {
      var i :| 0 <= i < |init| && init[i] == d;
      assert configs[i] == d;
    }
  }

  /** Appending an entry under a new key keeps the keys distinct. */
  lemma AppendFreshKey(s: seq<Entry>, e: Entry)
    requires DistinctKeys(s) && e.id !in Keys(s)
    ensures DistinctKeys(s + [e])
  {
    var r := s + [e];
    forall i, j | 0 <= i < j < |r|
      ensures r[i].id != r[j].id
    {
      if j == |s| {
        assert r[i].id == Keys(s)[i];
      }
    }
  }

  /** `get` on an absent key gives 0. */
  lemma {:induction false} MapGetAbsent(m: seq<Entry>, k: string)
    requires k !in Keys(m)
    ensures MapGet(m, k) == 0
  {
    if m != [] {
      assert Keys(m)[0] == m[0].id;
      assert Keys(m[1..]) == Keys(m)[1..];
      MapGetAbsent(m[1..], k);
    }
  }

  // ---------------------------------------------------------------------------
  // Stable sort by descending count
  // ---------------------------------------------------------------------------

  /** Counts never increase along the sequence. */
  predicate SortedDesc(s: seq<Entry>) {
    forall i, j :: 0 <= i < j < |s| ==> s[i].count >= s[j].count
  }

  /** The entries with count `c`, in order. */
  function WithCount(s: seq<Entry>, c: nat): seq<Entry> {
    if s == [] then []
    else (if s[0].count == c then [s[0]] else []) + WithCount(s[1..], c)
  }

  /** Places `x` before the first entry whose count is not above its own. */
  function Insert(x: Entry, s: seq<Entry>): seq<Entry> {
    if s == [] then [x]
    else if s[0].count <= x.count then [x] + s
    else [s[0]] + Insert(x, s[1..])
  }

  /** `sort((a, b) => b[1] - a[1])`, which is stable: an insertion sort. */
  function SortDesc(s: seq<Entry>): seq<Entry> {
    if s == [] then [] else Insert(s[0], SortDesc(s[1..]))
  }

  lemma {:induction false} InsertMultiset(x: Entry, s: seq<Entry>)
    ensures multiset(Insert(x, s)) == multiset(s) + multiset{x}
  {
    if s != [] && s[0].count > x.count {
      InsertMultiset(x, s[1..]);
      assert s == [s[0]] + s[1..];
    }
  }

  lemma {:induction false} InsertSorted(x: Entry, s: seq<Entry>)
    requires SortedDesc(s)
    ensures SortedDesc(Insert(x, s))
  {
    if s != [] && s[0].count > x.count {
      var t := s[1..];
      InsertSorted(x, t);
      InsertMultiset(x, t);
      var r := Insert(x, t);
      forall j | 0 <= j < |r|
        ensures s[0].count >= r[j].count
      {
        assert r[j] in multiset(r);
        if r[j] != x {
          assert r[j] in multiset(t);
          var k :| 0 <= k < |t| && t[k] == r[j];
          assert s[k + 1] == r[j];
        }
      }
    }
  }

  lemma {:induction false} InsertWithCount(x: Entry, s: seq<Entry>, c: nat)
    ensures WithCount(Insert(x, s), c) == (if x.count == c then [x] else []) + WithCount(s, c)
  {
    if s == [] {
      assert WithCount([x], c) == (if x.count == c then [x] else []) + WithCount([], c);
    } else if s[0].count <= x.count {
      WithCountCons(x, s, c);
    } else {
      var t := Insert(x, s[1..]);
      InsertWithCount(x, s[1..], c);
      WithCountCons(s[0], t, c);
      WithCountCons(s[0], s[1..], c);
      assert [s[0]] + s[1..] == s;
    }
  }

  /** `WithCount` of an entry placed in front. */
  lemma WithCountCons(x: Entry, s: seq<Entry>, c: nat)
    ensures WithCount([x] + s, c) == (if x.count == c then [x] else []) + WithCount(s, c)
  {
    assert ([x] + s)[0] == x && ([x] + s)[1..] == s;
  }

  /**
   * The sort is a permutation, orders by non-increasing count, and keeps entries of
   * equal count in their input order.
   */
  lemma {:induction false} SortDescCorrect(s: seq<Entry>)
    ensures multiset(SortDesc(s)) == multiset(s)
    ensures SortedDesc(SortDesc(s))
    ensures forall c: nat :: WithCount(SortDesc(s), c) == WithCount(s, c)
  {
    if s != [] {
      SortDescCorrect(s[1..]);
      InsertMultiset(s[0], SortDesc(s[1..]));
      InsertSorted(s[0], SortDesc(s[1..]));
      assert s == [s[0]] + s[1..];
      forall c: nat
        ensures WithCount(SortDesc(s), c) == WithCount(s, c)
      {
        InsertWithCount(s[0], SortDesc(s[1..]), c);
      }
    }
  }

  // ---------------------------------------------------------------------------
  // generateTags and getAllTags
  // ---------------------------------------------------------------------------

  /**
   * The `filter`/`reduce` of `generateTags`: each category with keywords runs
   * `checkKeywords` and, if anything matched, adds the count under its id.
   */
  method ScoreAll(text: string, configs: seq<TagConfig>) returns (scores: seq<Entry>)
    ensures scores == Accumulate(Counts(text), configs)
  {
    scores := [];
    for i := 0 to |configs|
      invariant scores == Accumulate(Counts(text), configs[..i])
    {
      AccumulateSnoc(Counts(text), configs, i);
      scores := ScoreConfig(text, scores, configs[i]);
    }
    assert configs[..|configs|] == configs;
  }

  /** The body of the `reduce`: one category's matches added to the score map. */
  method ScoreConfig(text: string, scores: seq<Entry>, config: TagConfig) returns (next: seq<Entry>)
    ensures next == ScoreStep(Counts(text), scores, config)
  {
    next := scores;
    if |config.keywords| > 0 {
      var matched := CE.CheckKeywords(text, config.keywords, Threshold);
      assert Counts(text)(config) == |matched|;
      if |matched| > 0 {
        next := MapSet(scores, config.id, MapGet(scores, config.id) + |matched|);
      }
    }
  }

  /** One more category folds one more `ScoreStep`. */
  lemma AccumulateSnoc(count: TagConfig -> nat, configs: seq<TagConfig>, i: nat)
    requires i < |configs|
    ensures Accumulate(count, configs[..i + 1]) == ScoreStep(count, Accumulate(count, configs[..i]), configs[i])
  {
    var p := configs[..i + 1];
    assert p[..|p| - 1] == configs[..i] && p[|p| - 1] == configs[i];
  }

  /** What `generateTags(text, defaultTags)` returns. */
  function Generated(text: string, defaultTags: seq<string>): seq<string> {
    if IsBlank(text) then defaultTags
    else
      var sorted := SortDesc(Accumulate(Counts(text), TagConfigs));
      if |sorted| > 0 then Keys(sorted) else defaultTags
  }

  /**
   * `generateTags`: blank text gives the defaults; otherwise the scores are accumulated
   * category by category, sorted, and their ids returned, or the defaults if none scored.
   */
  method GenerateTags(text: string, defaultTags: seq<string>) returns (tags: seq<string>)
    ensures tags == Generated(text, defaultTags)
  {
    if IsBlank(text) {
      return defaultTags;
    }
    var scores := ScoreAll(text, TagConfigs);
    var sorted := SortDesc(scores);
    tags := if |sorted| > 0 then Keys(sorted) else defaultTags;
  }

  /** The category table has distinct ids, and `other` is its only category without keywords. */
  lemma TagConfigsWellFormed()
    ensures DistinctIds(TagConfigs)
    ensures forall i :: 0 <= i < |TagConfigs| ==> (|TagConfigs[i].keywords| == 0 <==> TagConfigs[i].id == "other")
  {
    forall i, j | 0 <= i < j < |TagConfigs|
      ensures TagConfigs[i].id != TagConfigs[j].id
    {
      var a, b := TagConfigs[i].id, TagConfigs[j].id;
      if |a| == |b| {
        assert a[0] != b[0] || a[2] != b[2];
      }
    }
  }

  /** Blank text, or text no category matches, gives the defaults. */
  lemma GeneratedDefaults(text: string, defaultTags: seq<string>)
    ensures IsBlank(text) ==> Generated(text, defaultTags) == defaultTags
    ensures Scores(Counts(text), TagConfigs) == [] ==> Generated(text, defaultTags) == defaultTags
    ensures !IsBlank(text) && Scores(Counts(text), TagConfigs) != [] ==> Generated(text, defaultTags) != []
  {
    TagConfigsWellFormed();
    AccumulateIsScores(Counts(text), TagConfigs);
    SortDescCorrect(Scores(Counts(text), TagConfigs));
    if SortDesc(Scores(Counts(text), TagConfigs)) == [] {
      assert |multiset(Scores(Counts(text), TagConfigs))| == 0;
    }
  }

  /**
   * When categories match, the tags are the ids of the scoring categories, each once,
   * each with at least one matched keyword, `other` never among them, ordered by
   * non-increasing match count, and categories of equal count in table order.
   */
  lemma GeneratedRanking(text: string, defaultTags: seq<string>)
    requires !IsBlank(text) && Scores(Counts(text), TagConfigs) != []
    ensures var sorted := SortDesc(Scores(Counts(text), TagConfigs));
      && Generated(text, defaultTags) == Keys(sorted)
      && multiset(sorted) == multiset(Scores(Counts(text), TagConfigs))
      && DistinctKeys(sorted)
      && SortedDesc(sorted)
      && (forall c: nat :: WithCount(sorted, c) == WithCount(Scores(Counts(text), TagConfigs), c))
      && (forall e :: e in sorted ==> e.count >= 1 && e.id != "other")
  {
    TagConfigsWellFormed();
    AccumulateIsScores(Counts(text), TagConfigs);
    var s := Scores(Counts(text), TagConfigs);
    SortDescCorrect(s);
    var sorted := SortDesc(s);
    ScoresPositive(Counts(text), TagConfigs);
    forall e | e in sorted
      ensures e.count >= 1 && e.id != "other"
    {
      assert e in multiset(s);
    }
    DistinctKeysPermutation(s, sorted);
  }

  /** Every entry of `Scores` has a positive count and comes from a category with keywords. */
  lemma {:induction false} ScoresPositive(count: TagConfig -> nat, configs: seq<TagConfig>)
    requires forall i :: 0 <= i < |configs| ==> (|configs[i].keywords| == 0 <==> configs[i].id == "other")
    requires DistinctIds(configs)
    ensures forall e :: e in Scores(count, configs) ==> e.count >= 1 && e.id != "other"
    decreases |configs|
  {
    if configs != [] {
      var init := configs[..|configs| - 1];
      ScoresPositive(count, init);
    }
  }

  /** A permutation of a map's entries with distinct keys has distinct keys. */
  lemma DistinctKeysPermutation(s: seq<Entry>, t: seq<Entry>)
    requires DistinctKeys(s) && multiset(s) == multiset(t)
    ensures DistinctKeys(t)
  {
    forall i, j | 0 <= i < j < |t|
      ensures t[i].id != t[j].id
    {
      assert t[i] in multiset(s) && t[j] in multiset(s);
      var a :| 0 <= a < |s| && s[a] == t[i];
      var b :| 0 <= b < |s| && s[b] == t[j];
      if t[i] == t[j] {
        assert multiset(t)[t[i]] >= 2 by {
          assert t == t[..i] + [t[i]] + t[i + 1..j] + [t[j]] + t[j + 1..];
        }
        MultiplicityAtMostOne(s, a);
        assert false;
      }
    }
  }

  /** In a map with distinct keys each entry occurs once. */
  lemma MultiplicityAtMostOne(s: seq<Entry>, a: nat)
    requires DistinctKeys(s) && a < |s|
    ensures multiset(s)[s[a]] == 1
  {
    assert s == s[..a] + [s[a]] + s[a + 1..];
    assert s[a] !in s[..a] && s[a] !in s[a + 1..];
    assert multiset(s[..a])[s[a]] == 0 && multiset(s[a + 1..])[s[a]] == 0;
  }

  /** The `TagService` singleton: the lazily filled cache of all category ids. */
  class TagServiceState {
    var allTags: Option<seq<string>>

    /** The cache is empty or holds the ids of the table. */
    predicate Valid()
      reads this
    {
      allTags == None || allTags == Some(Ids(TagConfigs))
    }

    constructor ()
      ensures Valid() && allTags == None
    {
      allTags := None;
    }

    /** `getAllTags`: fills the cache on first use and returns a copy of it. */
    method GetAllTags() returns (tags: seq<string>)
      requires Valid()
      modifies this
      ensures Valid()
      ensures tags == Ids(TagConfigs) && allTags == Some(tags)
    {
      if allTags.None? {
        allTags := Some(Ids(TagConfigs));
      }
      tags := allTags.value;
    }
  }

  /** All sixteen ids, each once, `other` last. */
  lemma AllTagsShape()
    ensures |Ids(TagConfigs)| == 16
    ensures Ids(TagConfigs)[15] == "other"
    ensures forall i, j :: 0 <= i < j < 16 ==> Ids(TagConfigs)[i] != Ids(TagConfigs)[j]
  {
    TagConfigsWellFormed();
  }
}
