/**
 * The Mnet annual top-100 chart spider: it seeds one chart request per year
 * and page, numbers the song links of each chart page, and turns each song
 * page into one song record. Fetching, selector evaluation and URL
 * resolution belong to the crawling framework; here their results are inputs.
 */
module MnetChart {
  import opened Wrappers
  import opened PySeq
  import opened PyStr
  import opened PyRe
  import opened RoleScan

  /** `chart_url` is this head, the year, this query, and the page number. */
  const ChartUrlHead := "http://www.mnet.com/chart/TOP100/"
  const ChartUrlQuery := "?pNum="

  /** The spider's default `start_year` and `end_year`. */
  const DefaultStartYear := 2011
  const DefaultEndYear := 2011

  /** The two chart pages of a year, 50 songs each. */
  const Pages: seq<int> := [1, 2]

  /** The header of the staff block, "participating staff". */
  const StaffHeader := "참여스탭"

  /** Text nodes containing one of these are markup debris, not data. */
  const ArtifactWhitespace := "\r\n\t\t"
  const ArtifactEntity := "&nbsp"

  /** What travels with a chart request (`meta`) and comes back with its response. */
  datatype ChartMeta = ChartMeta(date: int, page: int)

  /** What travels with a song request. */
  datatype SongMeta = SongMeta(rank: int, date: int)

  datatype ChartRequest = ChartRequest(url: string, meta: ChartMeta)
  datatype SongRequest = SongRequest(url: string, meta: SongMeta)

  /** Why `parse_song_info` raises instead of yielding a record. */
  datatype Fault =
    | IdIndexError          // the URL splits into fewer than four pieces
    | TitleMissing          // no title text: `None.strip()`
    | TimeMissing           // no duration text: `None.replace(...)`
    | StaffHeaderMissing    // `list.remove` finds no staff header

  /** The record yielded for one song (`song_info`). */
  datatype SongInfo = SongInfo(
    date: int,
    rank: int,
    id: string,
    title: string,
    artist: Option<string>,
    roles: map<Role, seq<string>>,
    time: string)

  // ---------------------------------------------------------------------------
  // Request seeding (start_requests)

  /** `chart_url.format(year, page)`. */
  function ChartUrl(year: int, page: int): string
  {
    ChartUrlHead + Decimal(year) + ChartUrlQuery + Decimal(page)
  }

  /** Text free of '?' in front of the query is recovered from the joined string. */
  lemma SplitAtQuery(a1: string, b1: string, a2: string, b2: string)
    requires '?' !in a1 && '?' !in a2
    requires a1 + ChartUrlQuery + b1 == a2 + ChartUrlQuery + b2
    ensures a1 == a2 && b1 == b2
  {
    var r := a1 + ChartUrlQuery + b1;
    var n := if |a1| < |a2| then |a1| else |a2|;
    assert r[n] == '?';
    assert a1 == r[..|a1|] && a2 == r[..|a2|];
    assert b1 == r[|a1| + |ChartUrlQuery|..];
  }

  /** Different (year, page) pairs give different chart URLs. */
  lemma ChartUrlInjective(y1: int, p1: int, y2: int, p2: int)
    requires ChartUrl(y1, p1) == ChartUrl(y2, p2)
    ensures y1 == y2 && p1 == p2
  {
    var a1, b1, a2, b2 := Decimal(y1), Decimal(p1), Decimal(y2), Decimal(p2);
    DecimalRoundTrip(y1);
    DecimalRoundTrip(y2);
    var h := |ChartUrlHead|;
    assert a1 + ChartUrlQuery + b1 == ChartUrl(y1, p1)[h..];
    assert a2 + ChartUrlQuery + b2 == ChartUrl(y2, p2)[h..];
    SplitAtQuery(a1, b1, a2, b2);
    DecimalInjective(y1, y2);
    DecimalInjective(p1, p2);
  }

  /** The number of years of the inclusive range, none when it is empty. */
  function YearCount(startYear: int, endYear: int): nat
  {
    if startYear <= endYear then endYear - startYear + 1 else 0
  }

  /** `dates = [i for i in range(start_year, end_year + 1)]`. */
  function YearRange(startYear: int, endYear: int): (years: seq<int>)
    ensures |years| == YearCount(startYear, endYear)
    ensures forall k :: 0 <= k < |years| ==> years[k] == startYear + k
    decreases endYear - startYear
  {
    if startYear > endYear then [] else [startYear] + YearRange(startYear + 1, endYear)
  }

  /** The (date, page, url) triple `start_requests` records for one chart page. */
  function Seed(year: int, page: int): (int, int, string)
  {
    (year, page, ChartUrl(year, page))
  }

  /** The triples recorded for the first `years` years from `startYear`, in loop order. */
  function Seeds(startYear: int, years: nat): (seeds: seq<(int, int, string)>)
    ensures |seeds| == 2 * years
  {
    if years == 0 then []
    else
      var year := startYear + years - 1;
      Seeds(startYear, years - 1) + [Seed(year, 1), Seed(year, 2)]
  }

  /** Position `k` holds year number `k / 2` of the range, page 1 at even and page 2 at odd positions. */
  lemma {:induction false} SeedsAt(startYear: int, years: nat, k: nat)
    requires k < 2 * years
    ensures |Seeds(startYear, years)| == 2 * years
    ensures Seeds(startYear, years)[k] == Seed(startYear + k / 2, k % 2 + 1)
  {
    var y := years - 1;
    var front := Seeds(startYear, y);
    var year := startYear + y;
    assert Seeds(startYear, years) == front + [Seed(year, 1), Seed(year, 2)];
    if k < 2 * y {
      SeedsAt(startYear, y, k);
      assert Seeds(startYear, years)[k] == front[k];
    } else if k == 2 * y {
      assert k / 2 == y && k % 2 == 0;
    } else {
      assert k == 2 * y + 1;
      assert k / 2 == y && k % 2 == 1;
    }
  }

  /** Seeds are in (year, page) order and each is for its own URL. */
  lemma SeedsInOrder(startYear: int, years: nat, i: nat, j: nat)
    requires i < j < 2 * years
    ensures var a, b := Seeds(startYear, years)[i], Seeds(startYear, years)[j];
            && startYear <= a.0 < startYear + years && a.1 in {1, 2}
            && (a.0 < b.0 || (a.0 == b.0 && a.1 < b.1))
            && a.2 != b.2
  {
    SeedsAt(startYear, years, i);
    SeedsAt(startYear, years, j);
    var a, b := Seeds(startYear, years)[i], Seeds(startYear, years)[j];
    assert a.0 < b.0 || (a.0 == b.0 && a.1 < b.1);
    if a.2 == b.2 {
      ChartUrlInjective(a.0, a.1, b.0, b.1);
    }
  }

  /**
   * The seeds of `years` years from `startYear` cover exactly those years,
   * with pages 1 and 2 only, in (year, page) order, each for its own URL.
   */
  lemma SeedsProperties(startYear: int, years: nat)
    ensures forall k :: 0 <= k < 2 * years ==>
              var a := Seeds(startYear, years)[k]; startYear <= a.0 < startYear + years && a.1 in {1, 2}
    ensures forall i, j :: 0 <= i < j < 2 * years ==>
              var a, b := Seeds(startYear, years)[i], Seeds(startYear, years)[j];
              && (a.0 < b.0 || (a.0 == b.0 && a.1 < b.1))
              && a.2 != b.2
  {
    forall i, j | 0 <= i < j < 2 * years
      ensures var a, b := Seeds(startYear, years)[i], Seeds(startYear, years)[j];
              && (a.0 < b.0 || (a.0 == b.0 && a.1 < b.1))
              && a.2 != b.2
    {
      SeedsInOrder(startYear, years, i, j);
    }
    forall k | 0 <= k < 2 * years
      ensures var a := Seeds(startYear, years)[k]; startYear <= a.0 < startYear + years && a.1 in {1, 2}
    {
      SeedsAt(startYear, years, k);
    }
  }

  /** With the default years the spider seeds the two pages of the 2011 chart. */
  lemma DefaultSeeds()
    ensures Seeds(DefaultStartYear, YearCount(DefaultStartYear, DefaultEndYear)) ==
            [(2011, 1, "http://www.mnet.com/chart/TOP100/2011?pNum=1"),
             (2011, 2, "http://www.mnet.com/chart/TOP100/2011?pNum=2")]
  {
    assert NatDecimal(2) == "2";
    assert NatDecimal(20) == "20";
    assert NatDecimal(201) == "201";
    assert Decimal(2011) == "2011";
    assert Decimal(1) == "1" && Decimal(2) == "2";
    assert YearCount(DefaultStartYear, DefaultEndYear) == 1;
    assert ChartUrl(2011, 1) == "http://www.mnet.com/chart/TOP100/2011?pNum=1";
    assert ChartUrl(2011, 2) == "http://www.mnet.com/chart/TOP100/2011?pNum=2";
    assert Seeds(2011, 1) == [] + [Seed(2011, 1), Seed(2011, 2)];
  }

  /** The request yielded for a recorded triple. */
  function SeedRequest(seed: (int, int, string)): ChartRequest
  {
    ChartRequest(seed.2, ChartMeta(seed.0, seed.1))
  }

  /**
   * The first half of `start_requests`: the list `urls` of (date, page, url)
   * triples, built by appending inside the loops over the years and over
   * the pages (1, 2).
   */
  method ChartLocations(startYear: int, endYear: int) returns (urls: seq<(int, int, string)>)
    ensures urls == Seeds(startYear, YearCount(startYear, endYear))
  {
    urls := [];
    var dates := YearRange(startYear, endYear);
    for d := 0 to |dates|
      invariant urls == Seeds(startYear, d)
    {
      var year := dates[d];
      assert year == startYear + d;
      ghost var pair := [Seed(year, 1), Seed(year, 2)];
      for i := 0 to |Pages|
        invariant urls == Seeds(startYear, d) + pair[..i]
      {
        var page := Pages[i];
        urls := urls + [Seed(year, page)];
        assert pair[..i + 1] == pair[..i] + [Seed(year, page)] by {
          assert page == i + 1;
        }
      }
      assert urls == Seeds(startYear, d + 1) by {
        assert pair[..2] == pair;
        assert year == startYear + (d + 1) - 1;
      }
    }
  }

  /**
   * `start_requests`: for each year in order, page 1 then page 2; two
   * requests per year of the inclusive range and none for an empty range,
   * each for its own URL and carrying its date and page.
   */
  method StartRequests(startYear: int, endYear: int) returns (requests: seq<ChartRequest>)
    ensures |requests| == 2 * YearCount(startYear, endYear)
    ensures forall k :: 0 <= k < |requests| ==>
              requests[k] == SeedRequest(Seeds(startYear, YearCount(startYear, endYear))[k])
    ensures forall k :: 0 <= k < |requests| ==>
              startYear <= requests[k].meta.date <= endYear && requests[k].meta.page in {1, 2}
    ensures forall i, j :: 0 <= i < j < |requests| ==>
              var m, n := requests[i].meta, requests[j].meta;
              m.date < n.date || (m.date == n.date && m.page < n.page)
    ensures forall i, j :: 0 <= i < j < |requests| ==> requests[i].url != requests[j].url
  {
    var urls := ChartLocations(startYear, endYear);
    requests := [];
    for k := 0 to |urls|
      invariant |requests| == k
      invariant forall t :: 0 <= t < k ==> requests[t] == SeedRequest(urls[t])
    {
      var (date, page, url) := urls[k];
      requests := requests + [ChartRequest(url, ChartMeta(date, page))];
    }
    SeedsProperties(startYear, YearCount(startYear, endYear));
  }

  // ---------------------------------------------------------------------------
  // Chart numbering (parse_chart)

  /**
   * `parse_chart`: one song request per song link, in link order; the rank
   * is the link's position counted from 1 on page 1 and from 51 on any other
   * page, never read from the page. `urljoin` stands for `response.urljoin`.
   */
  method ParseChart(meta: ChartMeta, infoUrls: seq<string>, urljoin: string -> string)
    returns (requests: seq<SongRequest>)
    ensures |requests| == |infoUrls|
    ensures forall k :: 0 <= k < |requests| ==>
              requests[k].url == urljoin(infoUrls[k]) && requests[k].meta.date == meta.date
    ensures forall k :: 0 <= k < |requests| ==>
              requests[k].meta.rank == if meta.page == 1 then k + 1 else k + 51
    ensures forall k :: 0 < k < |requests| ==> requests[k].meta.rank == requests[k - 1].meta.rank + 1
    ensures meta.page == 1 && |infoUrls| <= 50 ==>
              forall k :: 0 <= k < |requests| ==> 1 <= requests[k].meta.rank <= 50
    ensures meta.page != 1 && |infoUrls| <= 50 ==>
              forall k :: 0 <= k < |requests| ==> 51 <= requests[k].meta.rank <= 100
  {
    var page := meta.page;
    requests := [];
    for index := 0 to |infoUrls|
      invariant |requests| == index
      invariant forall k :: 0 <= k < index ==>
                  requests[k] == SongRequest(urljoin(infoUrls[k]),
                                             SongMeta(if page == 1 then k + 1 else k + 51, meta.date))
    {
      var rank;
      if page == 1 {
        rank := index + 1;
      } else {
        rank := index + 51;
      }
      var nextPage := urljoin(infoUrls[index]);
      requests := requests + [SongRequest(nextPage, SongMeta(rank, meta.date))];
    }
  }

  // ---------------------------------------------------------------------------
  // Song records (parse_song_info)

  /** `re.split('/+', url)[3]`, kept as the raw string; indexing past the end raises. */
  function SongId(url: string): (r: Result<string, Fault>)
    ensures r.Ok? ==> '/' !in r.value
    ensures r.Err? ==> r.error == IdIndexError
  {
    SplitWellFormed(url);
    var pieces := SplitSlashRuns(url);
    if |pieces| > 3 then Ok(pieces[3]) else Err(IdIndexError)
  }

  /**
   * A URL made of slash-free pieces separated by runs of slashes has the
   * fourth piece as its id, and has none when there are fewer than four.
   */
  lemma SongIdOfPieces(ps: seq<string>, seps: seq<string>)
    requires WellFormedPieces(ps)
    requires |seps| == |ps| - 1 && forall k :: 0 <= k < |seps| ==> IsSlashRun(seps[k])
    ensures SongId(JoinRuns(ps, seps)) == if |ps| > 3 then Ok(ps[3]) else Err(IdIndexError)
  {
    SplitOfJoin(ps, seps);
  }

  /**
   * Every URL is its pieces joined by its slash runs, and its id is the
   * fourth piece: slash-free, and empty only when it is the last piece and
   * the URL ends with a slash.
   */
  lemma SongIdIsFourthPiece(url: string)
    ensures var ps, seps := SplitSlashRuns(url), SlashRunsOf(url);
            && url == JoinRuns(ps, seps)
            && SongId(url) == (if |ps| > 3 then Ok(ps[3]) else Err(IdIndexError))
            && (SongId(url).Ok? ==> '/' !in SongId(url).value)
            && (SongId(url) == Ok("") ==> |ps| == 4 && url != [] && url[|url| - 1] == '/')
  {
    JoinOfSplit(url);
    SplitWellFormed(url);
  }

  /** For instance, `http://host/a/123` has id `123`. */
  lemma SongIdExample()
    ensures SongId("http://host/a/123") == Ok("123")
  {
    var ps, seps := ["http:", "host", "a", "123"], ["//", "/", "/"];
    assert JoinRuns(ps, seps) == "http://host/a/123" by {
      assert ps[..3] == ["http:", "host", "a"] && seps[..2] == ["//", "/"];
      assert ps[..3][..2] == ["http:", "host"] && seps[..2][..1] == ["//"];
      assert ps[..3][..2][..1] == ["http:"] && seps[..2][..1][..0] == [];
      assert JoinRuns(["http:"], []) == "http:";
      assert JoinRuns(["http:", "host"], ["//"]) == "http:" + "//" + "host";
      assert JoinRuns(["http:", "host", "a"], ["//", "/"]) == "http://host" + "/" + "a";
      assert JoinRuns(ps, seps) == "http://host/a" + "/" + "123";
    }
    assert WellFormedPieces(ps) by {
      assert '/' !in ps[0] && '/' !in ps[1] && '/' !in ps[2] && '/' !in ps[3];
    }
    SongIdOfPieces(ps, seps);
  }

  /** `time.replace('(', '').replace(')', '')`. */
  function NormaliseDuration(time: string): (r: string)
    ensures ')' !in r && |r| <= |time|
  {
    DeleteChar(DeleteChar(time, '('), ')')
  }

  /**
   * The normalised duration has no parentheses, keeps every other character
   * in order and with its multiplicity, and normalising again changes nothing.
   */
  lemma NormaliseDurationSpec(time: string)
    ensures var r := NormaliseDuration(time);
            && '(' !in r && ')' !in r
            && IsSubsequence(r, time)
            && (forall c :: c != '(' && c != ')' ==> multiset(r)[c] == multiset(time)[c])
            && NormaliseDuration(r) == r
  {
    var open, close := (x: char) => x != '(', (x: char) => x != ')';
    var neither := (x: char) => x != '(' && x != ')';
    var once := DeleteChar(time, '(');
    var r := DeleteChar(once, ')');
    assert r == Filter(time, neither) by {
      DeleteCharIsFilter(time, '(', open);
      DeleteCharIsFilter(once, ')', close);
      FilterFuse(time, open, close, neither);
    }
    FilterIsSubsequence(time, neither);
    DeleteCharSpec(time, '(');
    DeleteCharSpec(once, ')');
    assert '(' !in r by {
      assert multiset(r)['('] == multiset(once)['('] == 0;
    }
    DeleteCharSpec(r, '(');
    DeleteCharSpec(r, ')');
  }

  /** The test of the `filter` lambda: neither debris marker occurs in the item. */
  predicate IsData(item: string)
  {
    !Contains(item, ArtifactWhitespace) && !Contains(item, ArtifactEntity)
  }

  /** `list(filter(lambda i: ..., info_list))`. */
  function CleanLineInfo(items: seq<string>): (r: seq<string>)
    ensures |r| <= |items|
    ensures forall x :: x in r ==> IsData(x)
  {
    Filter(items, IsData)
  }

  /**
   * After cleaning no item contains either marker; the cleaned list keeps
   * the order of the raw list, and every item free of both markers survives
   * as often as it occurred.
   */
  lemma CleanLineInfoSpec(items: seq<string>)
    ensures var r := CleanLineInfo(items);
            && (forall x :: x in r ==> !Contains(x, ArtifactWhitespace) && !Contains(x, ArtifactEntity))
            && IsSubsequence(r, items)
            && (forall x :: multiset(r)[x] == if IsData(x) then multiset(items)[x] else 0)
  {
    FilterIsSubsequence(items, IsData);
    FilterCounts(items, IsData);
  }

  /**
   * The cleaned staff items with their first header removed, ready for the
   * role scan; `None` where `list.remove` raises because there is no header.
   */
  function StaffList(lineInfo: seq<string>): (r: Option<seq<string>>)
    ensures r.Some? <==> StaffHeader in CleanLineInfo(lineInfo)
    ensures r.Some? ==> |r.value| + 1 == |CleanLineInfo(lineInfo)|
  {
    RemoveFirst(CleanLineInfo(lineInfo), StaffHeader)
  }

  /**
   * `parse_song_info`: the record for one song page. The page is given by
   * the results of its selectors: the title text, the duration text, the
   * artist text (each absent when the selector matches nothing) and the text
   * nodes of the staff block. The first failing step decides the fault.
   */
  method ParseSongInfo(meta: SongMeta, url: string, titleText: Option<string>,
                       timeText: Option<string>, artistText: Option<string>,
                       lineInfo: seq<string>)
    returns (r: Result<SongInfo, Fault>)
    ensures SongId(url).Err? ==> r == Err(IdIndexError)
    ensures SongId(url).Ok? && titleText.None? ==> r == Err(TitleMissing)
    ensures SongId(url).Ok? && titleText.Some? && timeText.None? ==> r == Err(TimeMissing)
    ensures SongId(url).Ok? && titleText.Some? && timeText.Some? && StaffHeader !in CleanLineInfo(lineInfo) ==>
              r == Err(StaffHeaderMissing)
    ensures r.Ok? <==>
              SongId(url).Ok? && titleText.Some? && timeText.Some? && StaffHeader in CleanLineInfo(lineInfo)
    ensures r.Ok? ==>
              var info := r.value;
              && info.date == meta.date && info.rank == meta.rank
              && Ok(info.id) == SongId(url)
              && info.title == Strip(titleText.value)
              && info.time == NormaliseDuration(timeText.value)
              && info.artist == artistText
              && info.roles.Keys == AllRoles
              && forall role :: role in info.roles ==> info.roles[role] == RoleList(StaffList(lineInfo).value, role)
  {
    var info := SongInfo(0, 0, "", "", None, map[], "");
    info := info.(date := meta.date);
    info := info.(rank := meta.rank);
    var pieces := SplitSlashRuns(url);
    if |pieces| <= 3 {
      return Err(IdIndexError);
    }
    info := info.(id := pieces[3]);
    if titleText.None? {
      return Err(TitleMissing);
    }
    info := info.(title := Strip(titleText.value));
    if timeText.None? {
      return Err(TimeMissing);
    }
    var time := DeleteChar(timeText.value, '(');
    time := DeleteChar(time, ')');
    info := info.(time := time);
    info := info.(artist := artistText);
    var infoList := CleanLineInfo(lineInfo);
    var removed := RemoveFirst(infoList, StaffHeader);
    if removed.None? {
      return Err(StaffHeaderMissing);
    }
    infoList := removed.value;
    var roles := ScanRoles(infoList);
    info := info.(roles := roles);
    return Ok(info);
  }
}
