/**
 * The video search service of the player's UI: a shared, mutable record of
 * search criteria, a search that filters the video list by those criteria,
 * a search by type alone, and a reset that clears the criteria.
 *
 * The video list is the application's fixed catalogue; here it is passed in
 * as a parameter. Searching reads the list and the criteria and changes
 * neither.
 */
module SearchInfo {
  import opened JsString
  import opened JsArray

  /** A catalogue entry, reduced to the two fields the search looks at. */
  datatype Video = Video(videoName: string, videoType: string)

  /** Match-all-if-blank: a criterion that trims to "" accepts every value;
      otherwise `filterHandler` decides, given the value as it is and the
      trimmed criterion. */
  function TrimSpaceFilter(primitiveData: string, searchData: string,
                           filterHandler: (string, string) -> bool): (r: bool)
    ensures IsBlank(searchData) ==> r
    ensures !IsBlank(searchData) ==> r == filterHandler(primitiveData, Trim(searchData))
  {
    TrimEmptyIffBlank(searchData);
    var trimmed := Trim(searchData);
    if trimmed != [] then filterHandler(primitiveData, trimmed) else true
  }

  /** The type rule on its own: a blank type criterion accepts every video,
      otherwise the video's type must equal the trimmed criterion exactly. */
  predicate MatchesType(video: Video, videoType: string) {
    IsBlank(videoType) || video.videoType == Trim(videoType)
  }

  /** The full selection rule: the name criterion (blank, or a case-sensitive
      substring of the video's name once trimmed) and the type rule. */
  predicate MatchesCriteria(video: Video, videoName: string, videoType: string) {
    && (IsBlank(videoName) || Contains(video.videoName, Trim(videoName)))
    && MatchesType(video, videoType)
  }

  /** The name filter of the search: `includes` on the video's name, under
      the match-all-if-blank rule. */
  function ByName(videoName: string): Video -> bool {
    (video: Video) => TrimSpaceFilter(video.videoName, videoName, (str1, str2) => Contains(str1, str2))
  }

  /** The type filter of both searches: strict equality on the video's type,
      under the match-all-if-blank rule. */
  function ByType(videoType: string): Video -> bool {
    (video: Video) => TrimSpaceFilter(video.videoType, videoType, (str1, str2) => str1 == str2)
  }

  /** Search by type alone, independent of the shared criteria: the videos
      whose type equals the trimmed argument, or all of them when it is blank. */
  function SearchType(videos: seq<Video>, videoType: string): (r: seq<Video>)
    ensures forall i :: 0 <= i < |r| ==> r[i] in videos && MatchesType(r[i], videoType)
    ensures forall i :: 0 <= i < |videos| && MatchesType(videos[i], videoType) ==> videos[i] in r
    ensures IsBlank(videoType) ==> r == videos
    ensures IsSubsequence(r, videos)
  {
    FilterIsSubsequence(videos, ByType(videoType));
    FilterKeepsAll(videos, ByType(videoType));
    Filter(videos, ByType(videoType))
  }

  /** Search by type keeps exactly the matching videos, in catalogue order. */
  lemma SearchTypeSelects(videos: seq<Video>, videoType: string)
    ensures SearchType(videos, videoType) == Filter(videos, video => MatchesType(video, videoType))
  {
    FilterExtensional(videos, ByType(videoType), video => MatchesType(video, videoType));
  }

  /** The names of the fields of the criteria record, in declaration order
      (the order in which the reset visits them). */
  datatype Key = VideoName | VideoType | CreateTimeBegin | CreateTimeEnd
               | LastVisitTimeBegin | LastVisitTimeEnd

  const Keys: seq<Key> :=
    [VideoName, VideoType, CreateTimeBegin, CreateTimeEnd, LastVisitTimeBegin, LastVisitTimeEnd]

  /** The shared search criteria bound to the search form. The four date
      fields are stored and cleared but never consulted by the search. */
  class SearchData {
    var videoName: string
    var videoType: string
    var createTimeBegin: string
    var createTimeEnd: string
    var lastVisitTimeBegin: string
    var lastVisitTimeEnd: string

    /** Every field starts as the empty string. */
    constructor ()
      ensures forall key :: Get(key) == ""
    {
      videoName, videoType := "", "";
      createTimeBegin, createTimeEnd := "", "";
      lastVisitTimeBegin, lastVisitTimeEnd := "", "";
    }

    /** The field named by `key`. */
    function Get(key: Key): string
      reads this
    {
      match key
      case VideoName => videoName
      case VideoType => videoType
      case CreateTimeBegin => createTimeBegin
      case CreateTimeEnd => createTimeEnd
      case LastVisitTimeBegin => lastVisitTimeBegin
      case LastVisitTimeEnd => lastVisitTimeEnd
    }

    /** Assigns the field named by `key`; the other fields keep their values. */
    method Set(key: Key, value: string)
      modifies this
      ensures Get(key) == value
      ensures forall other :: other != key ==> Get(other) == old(Get(other))
    {
      match key
      case VideoName => videoName := value;
      case VideoType => videoType := value;
      case CreateTimeBegin => createTimeBegin := value;
      case CreateTimeEnd => createTimeEnd := value;
      case LastVisitTimeBegin => lastVisitTimeBegin := value;
      case LastVisitTimeEnd => lastVisitTimeEnd := value;
    }

    /** The videos matching the current criteria, in catalogue order: first
        filtered by name, then by type. */
    function Search(videos: seq<Video>): (r: seq<Video>)
      reads this
      ensures forall i :: 0 <= i < |r| ==>
        r[i] in videos && MatchesCriteria(r[i], videoName, videoType)
      ensures forall i :: 0 <= i < |videos| && MatchesCriteria(videos[i], videoName, videoType) ==>
        videos[i] in r
      ensures IsBlank(videoName) && IsBlank(videoType) ==> r == videos
    {
      var name, vtype := videoName, videoType;
      var r := Filter(Filter(videos, ByName(name)), ByType(vtype));
      FilterFilter(videos, ByName(name), ByType(vtype), video => MatchesCriteria(video, name, vtype));
      FilterKeepsAll(videos, video => MatchesCriteria(video, name, vtype));
      r
    }

    /** Clears the criteria: every field, visited in declaration order, is set
        to the empty string. The model assumes every field holds a string,
        so there is no nested record to descend into. Afterwards the search selects the whole
        catalogue. The new state does not depend on the old one, so a second
        reset changes nothing. */
    method Reset()
      modifies this
      ensures forall key :: Get(key) == ""
      ensures forall videos :: Search(videos) == videos
    {
      for i := 0 to |Keys|
        invariant forall j :: 0 <= j < i ==> Get(Keys[j]) == ""
      {
        Set(Keys[i], "");
      }
      forall key ensures Get(key) == "" {
        match key
        case VideoName => assert key == Keys[0];
        case VideoType => assert key == Keys[1];
        case CreateTimeBegin => assert key == Keys[2];
        case CreateTimeEnd => assert key == Keys[3];
        case LastVisitTimeBegin => assert key == Keys[4];
        case LastVisitTimeEnd => assert key == Keys[5];
      }
      assert videoName == Get(VideoName) && videoType == Get(VideoType);
    }
  }

  /** The search keeps exactly the videos that satisfy the selection rule,
      in catalogue order: the two chained filters act as one. */
  lemma SearchSelects(criteria: SearchData, videos: seq<Video>)
    ensures var name, vtype := criteria.videoName, criteria.videoType;
      criteria.Search(videos) == Filter(videos, video => MatchesCriteria(video, name, vtype))
  {
    var name, vtype := criteria.videoName, criteria.videoType;
    FilterFilter(videos, ByName(name), ByType(vtype), video => MatchesCriteria(video, name, vtype));
  }

  /** The search only deletes videos from the catalogue, keeping the order of the rest. */
  lemma SearchIsSubsequence(criteria: SearchData, videos: seq<Video>)
    ensures IsSubsequence(criteria.Search(videos), videos)
  {
    SearchSelects(criteria, videos);
    var name, vtype := criteria.videoName, criteria.videoType;
    FilterIsSubsequence(videos, video => MatchesCriteria(video, name, vtype));
  }

  /** Only the name and type criteria influence the search; the date fields do not. */
  lemma SearchIgnoresDates(a: SearchData, b: SearchData, videos: seq<Video>)
    requires a.videoName == b.videoName && a.videoType == b.videoType
    ensures a.Search(videos) == b.Search(videos)
  {
  }

  /** Matching is case-sensitive: the name criterion "cat" finds neither
      "Cat Fun" nor "Dog Drama". */
  lemma SearchIsCaseSensitive(criteria: SearchData)
    requires criteria.videoName == "cat" && criteria.videoType == ""
    ensures criteria.Search([Video("Cat Fun", "Comedy"), Video("Dog Drama", "Drama")]) == []
  {
    TrimKeepsSolidString("cat");
    forall hay | hay == "Cat Fun" || hay == "Dog Drama"
      ensures !Contains(hay, "cat")
    {
      forall i | 0 <= i <= |hay| - 3 ensures !("cat" <= hay[i..]) {
        assert hay[i..][0] == hay[i] != 'c';
      }
    }
  }

  /** The type argument is trimmed before comparing: " Comedy " selects
      exactly the videos whose type is "Comedy", in catalogue order. */
  lemma SearchTypeTrimsArgument(videos: seq<Video>)
    ensures SearchType(videos, " Comedy ") == Filter(videos, (video: Video) => video.videoType == "Comedy")
  {
    var s := " Comedy ";
    assert s[1..1 + |"Comedy"|] == "Comedy";
    assert !IsBlank(s) by { assert s[1] == 'C'; }
    TrimIsTheSolidCore(s, 1, "Comedy");
    SearchTypeSelects(videos, s);
    FilterExtensional(videos, video => MatchesType(video, s), (video: Video) => video.videoType == "Comedy");
  }
}
