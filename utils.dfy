/**
 * src/lib/utils.ts: `truncateText` and the closed tag sets (novel genres,
 * novel styles, chapter statuses, generation task types) with their wire
 * values and display labels.
 */
module Utils {
  import opened Wrappers
  import Js

  const Ellipsis: string := "..."

  /**
   * `truncateText(text, maxLength)`: the text itself when it fits, otherwise
   * `text.slice(0, maxLength)` followed by three dots. A negative limit is
   * measured from the end of the text, as `slice` does.
   */
  function TruncateText(text: string, maxLength: int): (r: string)
    ensures |text| <= maxLength ==> r == text
    ensures |text| > maxLength && maxLength >= 0 ==> r == text[..maxLength] + Ellipsis
    ensures maxLength < 0 ==>
      r == text[..if |text| + maxLength < 0 then 0 else |text| + maxLength] + Ellipsis
    ensures maxLength >= 0 ==> |r| <= maxLength + 3
    ensures maxLength >= 0 && |text| > maxLength ==> |r| == maxLength + 3
    ensures maxLength >= 0 ==>
      var keep := if |text| < maxLength then |text| else maxLength;
      |r| >= keep && r[..keep] == text[..keep]
  {
    if |text| <= maxLength then text
    else Js.Slice(text, 0, maxLength) + Ellipsis
  }

  /** Truncating twice with the same non-negative limit is truncating once. */
  lemma TruncateTextIdempotent(text: string, maxLength: int)
    requires maxLength >= 0
    ensures TruncateText(TruncateText(text, maxLength), maxLength) == TruncateText(text, maxLength)
  {
  }

  // ---------------------------------------------------------------------
  // NOVEL_GENRES

  datatype Genre = Fantasy | Romance | Urban | History | SciFi | MartialArts | Mystery | Youth
  {
    function Value(): string {
      match this
      case Fantasy => "fantasy"
      case Romance => "romance"
      case Urban => "urban"
      case History => "history"
      case SciFi => "scifi"
      case MartialArts => "martial-arts"
      case Mystery => "mystery"
      case Youth => "youth"
    }

    function Label(): string {
      match this
      case Fantasy => "玄幻"
      case Romance => "言情"
      case Urban => "都市"
      case History => "历史"
      case SciFi => "科幻"
      case MartialArts => "武侠"
      case Mystery => "悬疑"
      case Youth => "青春"
    }
  }

  /** The genre list in its declared order. */
  const NovelGenres: seq<Genre> :=
    [Fantasy, Romance, Urban, History, SciFi, MartialArts, Mystery, Youth]

  function ParseGenre(v: string): (r: Option<Genre>)
    ensures r.Some? ==> r.value.Value() == v
    ensures r.None? <==> forall g: Genre :: g.Value() != v
  {
    if v == "fantasy" then Some(Fantasy)
    else if v == "romance" then Some(Romance)
    else if v == "urban" then Some(Urban)
    else if v == "history" then Some(History)
    else if v == "scifi" then Some(SciFi)
    else if v == "martial-arts" then Some(MartialArts)
    else if v == "mystery" then Some(Mystery)
    else if v == "youth" then Some(Youth)
    else None
  }

  /** Eight genres, each listed once, with pairwise distinct values and labels. */
  lemma NovelGenresAreEightDistinct()
    ensures |NovelGenres| == 8
    ensures forall g: Genre :: g in NovelGenres
    ensures forall i, j :: 0 <= i < j < |NovelGenres| ==>
      NovelGenres[i].Value() != NovelGenres[j].Value() && NovelGenres[i].Label() != NovelGenres[j].Label()
  {
    forall g: Genre ensures g in NovelGenres {
      assert g == NovelGenres[0] || g == NovelGenres[1] || g == NovelGenres[2] || g == NovelGenres[3] || g == NovelGenres[4] || g == NovelGenres[5] || g == NovelGenres[6] || g == NovelGenres[7];
    }
  }

  // ---------------------------------------------------------------------
  // NOVEL_STYLES

  datatype Style = Modern | Classical | Humorous | Dramatic | Poetic
  {
    function Value(): string {
      match this
      case Modern => "modern"
      case Classical => "classical"
      case Humorous => "humorous"
      case Dramatic => "dramatic"
      case Poetic => "poetic"
    }

    function Label(): string {
      match this
      case Modern => "现代简约"
      case Classical => "古典优雅"
      case Humorous => "幽默轻松"
      case Dramatic => "戏剧化"
      case Poetic => "诗意抒情"
    }
  }

  const NovelStyles: seq<Style> := [Modern, Classical, Humorous, Dramatic, Poetic]

  function ParseStyle(v: string): (r: Option<Style>)
    ensures r.Some? ==> r.value.Value() == v
    ensures r.None? <==> forall s: Style :: s.Value() != v
  {
    if v == "modern" then Some(Modern)
    else if v == "classical" then Some(Classical)
    else if v == "humorous" then Some(Humorous)
    else if v == "dramatic" then Some(Dramatic)
    else if v == "poetic" then Some(Poetic)
    else None
  }

  /** Five styles, each listed once with distinct values; "modern" is the first. */
  lemma NovelStylesAreFiveDistinct()
    ensures |NovelStyles| == 5
    ensures forall s: Style :: s in NovelStyles
    ensures forall i, j :: 0 <= i < j < |NovelStyles| ==>
      NovelStyles[i].Value() != NovelStyles[j].Value() && NovelStyles[i].Label() != NovelStyles[j].Label()
    ensures NovelStyles[0].Value() == "modern" && ParseStyle("modern") == Some(Modern)
  {
    forall s: Style ensures s in NovelStyles {
      assert s == NovelStyles[0] || s == NovelStyles[1] || s == NovelStyles[2] || s == NovelStyles[3] || s == NovelStyles[4];
    }
  }

  // ---------------------------------------------------------------------
  // CHAPTER_STATUS

  datatype ChapterStatus = Pending | Generating | Completed | Error
  {
    function Value(): string {
      match this
      case Pending => "pending"
      case Generating => "generating"
      case Completed => "completed"
      case Error => "error"
    }
  }

  const ChapterStatuses: seq<ChapterStatus> := [Pending, Generating, Completed, Error]

  function ParseChapterStatus(v: string): (r: Option<ChapterStatus>)
    ensures r.Some? ==> r.value.Value() == v
    ensures r.None? <==> forall s: ChapterStatus :: s.Value() != v
  {
    if v == "pending" then Some(Pending)
    else if v == "generating" then Some(Generating)
    else if v == "completed" then Some(Completed)
    else if v == "error" then Some(Error)
    else None
  }

  /** Exactly four statuses, with distinct wire values. */
  lemma ChapterStatusesAreFourDistinct()
    ensures |ChapterStatuses| == 4
    ensures forall s: ChapterStatus :: s in ChapterStatuses
    ensures forall i, j :: 0 <= i < j < |ChapterStatuses| ==>
      ChapterStatuses[i].Value() != ChapterStatuses[j].Value()
    ensures forall s: ChapterStatus :: ParseChapterStatus(s.Value()) == Some(s)
  {
    forall s: ChapterStatus ensures s in ChapterStatuses {
      assert s == ChapterStatuses[0] || s == ChapterStatuses[1] || s == ChapterStatuses[2] || s == ChapterStatuses[3];
    }
  }

  // ---------------------------------------------------------------------
  // GENERATION_TASK_TYPES

  datatype TaskType = ContentAnalysis | StyleAdaptation | ChapterGeneration | QualityReview
  {
    function Value(): string {
      match this
      case ContentAnalysis => "content_analysis"
      case StyleAdaptation => "style_adaptation"
      case ChapterGeneration => "chapter_generation"
      case QualityReview => "quality_review"
    }
  }

  const TaskTypes: seq<TaskType> := [ContentAnalysis, StyleAdaptation, ChapterGeneration, QualityReview]

  function ParseTaskType(v: string): (r: Option<TaskType>)
    ensures r.Some? ==> r.value.Value() == v
    ensures r.None? <==> forall t: TaskType :: t.Value() != v
  {
    if v == "content_analysis" then Some(ContentAnalysis)
    else if v == "style_adaptation" then Some(StyleAdaptation)
    else if v == "chapter_generation" then Some(ChapterGeneration)
    else if v == "quality_review" then Some(QualityReview)
    else None
  }

  lemma TaskTypesAreFourDistinct()
    ensures |TaskTypes| == 4
    ensures forall t: TaskType :: t in TaskTypes
    ensures forall i, j :: 0 <= i < j < |TaskTypes| ==> TaskTypes[i].Value() != TaskTypes[j].Value()
    ensures forall t: TaskType :: ParseTaskType(t.Value()) == Some(t)
  {
    forall t: TaskType ensures t in TaskTypes {
      assert t == TaskTypes[0] || t == TaskTypes[1] || t == TaskTypes[2] || t == TaskTypes[3];
    }
  }
}
