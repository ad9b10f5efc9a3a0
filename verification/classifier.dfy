/** The blood-pressure category of a (systolic, diastolic) pair. Both the
    browser page and the command-line logger use the same four-way,
    first-match-wins threshold chain and differ only in the labels they
    show. */
module Classifier {
  import opened JsNumbers

  datatype Category = Normal | Elevated | Stage1 | Stage2

  /** getBPStatus: Normal below 120/80, Elevated for systolic 120-129 with
      diastolic below 80, Stage 1 whenever systolic is below 140 or
      diastolic below 90, and Stage 2 otherwise. Comparisons are JavaScript
      comparisons, so a NaN value fails every `<` test. */
  function Classify(sys: Num, dia: Num): (c: Category)
    ensures c == Normal <==> Below(sys, 120) && Below(dia, 80)
    ensures c == Elevated <==> !Below(sys, 120) && Below(sys, 130) && Below(dia, 80)
    ensures c == Stage2 <==> !Below(sys, 140) && !Below(dia, 90)
    ensures c == Stage1 <==> !(c == Normal || c == Elevated || c == Stage2)
  {
    if Below(sys, 120) && Below(dia, 80) then Normal
    else if Below(sys, 130) && Below(dia, 80) then Elevated
    else if Below(sys, 140) || Below(dia, 90) then Stage1
    else Stage2
  }

  /** On integer readings the categories are the usual bands: Stage 2 needs
      both systolic >= 140 and diastolic >= 90, and every other reading above
      the Elevated band is Stage 1. */
  lemma ClassifyIntegers(s: int, d: int)
    ensures Classify(Int(s), Int(d)) == Normal <==> s < 120 && d < 80
    ensures Classify(Int(s), Int(d)) == Elevated <==> 120 <= s < 130 && d < 80
    ensures Classify(Int(s), Int(d)) == Stage2 <==> s >= 140 && d >= 90
    ensures Classify(Int(s), Int(d)) == Stage1 <==>
      (d >= 80 || s >= 130) && (s < 140 || d < 90)
  {
  }

  /** Readings where only one of the two values is past the Stage 2 line. */
  lemma MixedReadingsAreStage1()
    ensures Classify(Int(150), Int(85)) == Stage1
    ensures Classify(Int(122), Int(81)) == Stage1
    ensures Classify(Int(135), Int(95)) == Stage1
  {
  }

  /** A reading with a NaN value is never Normal or Elevated; it is Stage 2
      exactly when the other value is not below the Stage 2 line. */
  lemma ClassifyNaN(x: Num)
    ensures Classify(NaN, x) == (if Below(x, 90) then Stage1 else Stage2)
    ensures Classify(x, NaN) == (if Below(x, 140) then Stage1 else Stage2)
  {
  }

  /** The browser page's status: badge text and CSS class. */
  datatype Status = Status(text: string, cssClass: string)

  function PageStatus(c: Category): (s: Status)
    ensures c == Stage1 || c == Stage2 <==> |s.text| >= 4 && s.text[..4] == "High"
    ensures |s.cssClass| > 7 && s.cssClass[..7] == "status-"
  {
    match c
    case Normal => assert "Normal"[..4] == "Norm"; Status("Normal", "status-normal")
    case Elevated => assert "Elevated"[..4] == "Elev"; Status("Elevated", "status-elevated")
    case Stage1 => Status("High Stage 1", "status-high")
    case Stage2 => Status("High Stage 2", "status-danger")
  }

  /** The command-line logger's status word. */
  function CliStatus(c: Category): (w: string)
    ensures c == Stage1 || c == Stage2 <==> |w| >= 4 && w[..4] == "High"
    ensures c == Normal || c == Elevated <==> w == PageStatus(c).text
  {
    match c
    case Normal => assert "Normal"[..4] == "Norm"; "Normal"
    case Elevated => assert "Elevated"[..4] == "Elev"; "Elevated"
    case Stage1 => "High-1"
    case Stage2 => "High-2"
  }

  /** The two front ends label the categories one-for-one: each label
      determines the category, so the page badge and the logger word for the
      same reading always name the same category. */
  lemma LabelsCorrespond(a: Category, b: Category)
    ensures PageStatus(a) == PageStatus(b) <==> a == b
    ensures CliStatus(a) == CliStatus(b) <==> a == b
    ensures PageStatus(a).text == PageStatus(b).text <==> CliStatus(a) == CliStatus(b)
  {
  }
}
