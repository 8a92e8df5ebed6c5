/**
 * How the correction-records page presents one record: the grade's display
 * name, the requirement text, the word count, the image chip, and the
 * status badge with the avatar mood and the report button that follow from
 * the status. Loading the records and formatting dates are not modelled.
 */
module CorrectionRecords {
  import opened Wrappers
  import opened JsString
  import opened Json
  import SubmitForm

  /** The grade codes that have a Chinese display name. */
  const GradeMap: map<string, string> := map[
    "primary1" := "一年级", "primary2" := "二年级", "primary3" := "三年级",
    "primary4" := "四年级", "primary5" := "五年级", "primary6" := "六年级"]

  /** `GRADE_MAP[g] || g`: the mapped name, or the code itself. */
  function GradeDisplayName(g: string): (r: string)
    ensures g in GradeMap ==> r == GradeMap[g]
    ensures g !in GradeMap ==> r == g
  {
    if g in GradeMap && |GradeMap[g]| > 0 then GradeMap[g] else g
  }

  /** A code is shown translated exactly when the map knows it, and two
      different known codes never share a name. */
  lemma GradeNames(g: string, h: string)
    ensures GradeDisplayName(g) != g <==> g in GradeMap
    ensures g in GradeMap && h in GradeMap && g != h ==> GradeDisplayName(g) != GradeDisplayName(h)
  {
  }

  /** Of the twelve codes the submission form offers, only the six primary
      grades are translated; a junior or high-school record shows its raw
      code. */
  lemma FormGradesDisplay()
    ensures |SubmitForm.GradeCodes| == 12
    ensures forall k :: 0 <= k < 12 ==>
      (GradeDisplayName(SubmitForm.GradeCodes[k]) != SubmitForm.GradeCodes[k] <==> k < 6)
  {
    GradeNames("junior1", "");
    GradeNames("junior2", "");
    GradeNames("junior3", "");
    GradeNames("high1", "");
    GradeNames("high2", "");
    GradeNames("high3", "");
  }

  /** `title && title.trim() ? title : "无"`. A truthy title that is not a
      string has no `trim`, and the call throws: that is `None`. */
  function RequirementText(title: Option<Json>): (r: Option<Json>)
    ensures r.None? <==> Present(title) && !title.value.JStr?
    ensures r == Some(JStr("无")) <==>
      !Present(title) || (title.value.JStr? && (Blank(title.value.s) || title.value.s == "无"))
    ensures r.Some? && r != Some(JStr("无")) ==> r == title
  {
    if !Present(title) then Some(JStr("无"))
    else match title.value
      case JStr(s) =>
        TrimEmptyIffBlank(s);
        if Trim(s) != "" then title else Some(JStr("无"))
      case _ => None
  }

  /** `wordCount || "0"`: what is shown is never empty. */
  function WordCountDisplay(wordCount: Option<Json>): (r: Json)
    ensures Truthy(r)
    ensures Present(wordCount) <==> Some(r) == wordCount
    ensures !Present(wordCount) ==> r == JStr("0")
  {
    if Present(wordCount) then wordCount.value else JStr("0")
  }

  /** `imageCount > 0`; a missing count compares false. */
  predicate ImageChipShown(imageCount: Option<int>) {
    imageCount.Some? && imageCount.value > 0
  }

  /** The four cases of the status `switch`. */
  datatype Status = Processing | Completed | Failed | Unknown

  /** The `switch (status)`: strict equality with the three known codes,
      everything else (another string, a number, `undefined`) is the
      default case. */
  function Classify(status: Option<Json>): (r: Status)
    ensures r == Completed <==> status == Some(JStr("completed"))
    ensures r == Processing <==> status == Some(JStr("processing"))
    ensures r == Failed <==> status == Some(JStr("error"))
  {
    if status == Some(JStr("processing")) then Processing
    else if status == Some(JStr("completed")) then Completed
    else if status == Some(JStr("error")) then Failed
    else Unknown
  }

  /** The badge text. */
  function StatusLabel(s: Status): string {
    match s
    case Processing => "处理中"
    case Completed => "批改完成"
    case Failed => "处理失败"
    case Unknown => "未知状态"
  }

  /** The avatar's mood. */
  function StatusMood(s: Status): string {
    match s
    case Processing => "thinking"
    case Completed => "happy"
    case Failed => "sad"
    case Unknown => "default"
  }

  datatype RecordView = RecordView(badge: string, mood: string, highlighted: bool, reportEnabled: bool)

  /** The parts of a record card that follow from its status. The card is
      highlighted, and its report button enabled, exactly for the status
      `"completed"`. */
  function ViewStatus(status: Option<Json>): (r: RecordView)
    ensures r.highlighted == r.reportEnabled
    ensures r.reportEnabled <==> status == Some(JStr("completed"))
  {
    var s := Classify(status);
    RecordView(StatusLabel(s), StatusMood(s), status == Some(JStr("completed")),
      !(status != Some(JStr("completed"))))
  }

  /** The badge, the mood and the button agree: each of badge and mood
      determines the other, and the report opens exactly under the
      "批改完成" badge and the happy avatar. */
  lemma StatusViewsAgree(a: Option<Json>, b: Option<Json>)
    ensures ViewStatus(a).badge == ViewStatus(b).badge <==> ViewStatus(a).mood == ViewStatus(b).mood
    ensures ViewStatus(a).reportEnabled <==> ViewStatus(a).badge == "批改完成"
    ensures ViewStatus(a).reportEnabled <==> ViewStatus(a).mood == "happy"
    ensures ViewStatus(a).badge == "未知状态" <==>
      a != Some(JStr("processing")) && a != Some(JStr("completed")) && a != Some(JStr("error"))
  {
  }
}
