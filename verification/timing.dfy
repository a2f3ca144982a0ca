/**
  Time allocation: the request sent to the planning call
  (`planejar_tempos_dos_slides`), how its reply is read, the per-slide lookup
  in the returned plan, the spoken-duration phrase of
  `gerar_roteiro_para_um_slide`, and the position tag of each slide.
 */
module Timing {
  import opened Wrappers
  import opened Text

  /** Seconds given to a slide the plan does not mention. */
  const DefaultSeconds := 30

  /** One plan entry: `{"slide_num": ..., "tempo_atribuido_segundos": ...}`. */
  datatype PlanItem = PlanItem(slideNum: int, seconds: int)

  /** What the planning prompt is built from: every slide labelled with its page number, and the total time. */
  datatype PlanRequest = PlanRequest(slides: seq<(int, string)>, minutes: int, totalSeconds: int)

  /**
    The planning call's outcome: the call or the JSON decoding failed, or the
    decoded object, of which only the `"plano"` entry (possibly absent) is read.
   */
  datatype PlanReply = CallFailed | Parsed(plano: Option<seq<PlanItem>>)

  /** The planning request for the extracted pages, numbered from `pagIni`. */
  function PlanRequestFor(texts: seq<string>, minutes: int, pagIni: int): (q: PlanRequest)
    ensures |q.slides| == |texts|
    ensures forall i :: 0 <= i < |texts| ==> q.slides[i].0 == pagIni + i && q.slides[i].1 == Strip(texts[i])
    ensures q.minutes == minutes && q.totalSeconds == 60 * minutes
  {
    var slides := seq(|texts|, i requires 0 <= i < |texts| => (pagIni + i, Strip(texts[i])));
    PlanRequest(slides, minutes, 60 * minutes)
  }

  /** The plan: `None` when the call failed, the empty plan when `"plano"` is missing. */
  function PlanTimes(planner: PlanRequest -> PlanReply, q: PlanRequest): Option<seq<PlanItem>> {
    match planner(q)
    case CallFailed => None
    case Parsed(None) => Some([])
    case Parsed(Some(p)) => Some(p)
  }

  /** `not plano_de_tempo`: no plan at all, or an empty one. */
  predicate PlanUnusable(p: Option<seq<PlanItem>>) {
    p.None? || |p.value| == 0
  }

  /**
    The run stops before any script is generated exactly when the planning
    call failed, its reply had no `"plano"` entry, or that entry was empty.
   */
  lemma PlanAbortCases(planner: PlanRequest -> PlanReply, q: PlanRequest)
    ensures PlanUnusable(PlanTimes(planner, q))
        <==> planner(q) in {CallFailed, Parsed(None), Parsed(Some([]))}
    ensures !PlanUnusable(PlanTimes(planner, q)) ==> planner(q).Parsed? && PlanTimes(planner, q) == planner(q).plano
  {
  }

  /**
    The seconds of the FIRST plan entry for slide `num`, or `DefaultSeconds`
    when no entry names it.
   */
  function LookupSeconds(plan: seq<PlanItem>, num: int): (t: int)
    ensures (forall i :: 0 <= i < |plan| ==> plan[i].slideNum != num) ==> t == DefaultSeconds
    ensures (exists i :: 0 <= i < |plan| && plan[i].slideNum == num) ==> t == plan[FirstEntry(plan, num)].seconds
  {
    if |plan| == 0 then
      DefaultSeconds
    else if plan[0].slideNum == num then
      plan[0].seconds
    else
      var t := LookupSeconds(plan[1..], num);
      assert forall i :: 1 <= i < |plan| ==> plan[1..][i - 1] == plan[i];
      t
  }

  /** Entries for other slides, placed anywhere, never change a slide's time. */
  lemma {:induction false} LookupIgnoresOthers(plan: seq<PlanItem>, other: seq<PlanItem>, num: int)
    requires forall i :: 0 <= i < |other| ==> other[i].slideNum != num
    ensures LookupSeconds(other + plan, num) == LookupSeconds(plan, num)
    ensures LookupSeconds(plan + other, num) == LookupSeconds(plan, num)
  {
    if exists i :: 0 <= i < |plan| && plan[i].slideNum == num {
      var i := FirstEntry(plan, num);
      assert (other + plan)[|other| + i] == plan[i];
      assert (plan + other)[i] == plan[i];
    } else {
      assert forall i :: 0 <= i < |other + plan| ==> (other + plan)[i].slideNum != num by {
        forall i | 0 <= i < |other + plan|
          ensures (other + plan)[i].slideNum != num
        {
          if i < |other| { assert (other + plan)[i] == other[i]; }
          else { assert (other + plan)[i] == plan[i - |other|]; }
        }
      }
      assert forall i :: 0 <= i < |plan + other| ==> (plan + other)[i].slideNum != num by {
        forall i | 0 <= i < |plan + other|
          ensures (plan + other)[i].slideNum != num
        {
          if i < |plan| { assert (plan + other)[i] == plan[i]; }
          else { assert (plan + other)[i] == other[i - |plan|]; }
        }
      }
    }
  }

  /** The index of the first entry for `num`, when there is one. */
  function FirstEntry(plan: seq<PlanItem>, num: int): (i: nat)
    requires exists i :: 0 <= i < |plan| && plan[i].slideNum == num
    ensures i < |plan| && plan[i].slideNum == num
    ensures forall j :: 0 <= j < i ==> plan[j].slideNum != num
  {
    if plan[0].slideNum == num then 0
    else
      assert exists i :: 0 <= i < |plan[1..]| && plan[1..][i].slideNum == num by {
        var i :| 0 <= i < |plan| && plan[i].slideNum == num;
        assert plan[1..][i - 1] == plan[i];
      }
      1 + FirstEntry(plan[1..], num)
  }

  // ---------------------------------------------------------------------------
  // Spoken duration
  // ---------------------------------------------------------------------------

  /** A duration as the generation prompt states it. */
  datatype Duration = MinutesAndSeconds(minutes: int, seconds: int) | SecondsOnly(seconds: int)

  function TotalSeconds(d: Duration): int {
    match d
    case MinutesAndSeconds(m, s) => m * 60 + s
    case SecondsOnly(s) => s
  }

  /**
    Whole minutes and the remaining seconds from one minute on, plain seconds
    below that (`t // 60` and `t % 60` coincide with Dafny's `/` and `%` here,
    as `t` is positive).
   */
  function SplitDuration(t: int): (d: Duration)
    ensures d.MinutesAndSeconds? <==> t >= 60
    ensures TotalSeconds(d) == t
    ensures d.MinutesAndSeconds? ==> d.minutes >= 1 && 0 <= d.seconds < 60
  {
    if t >= 60 then MinutesAndSeconds(t / 60, t % 60) else SecondsOnly(t)
  }

  /** The split is the only one with at least a minute and fewer than 60 leftover seconds. */
  lemma SplitDurationUnique(m: int, s: int)
    requires m >= 1 && 0 <= s < 60
    ensures SplitDuration(m * 60 + s) == MinutesAndSeconds(m, s)
  {
  }

  /** The phrase inserted into the generation prompt. */
  function DurationPhrase(d: Duration): string {
    match d
    case MinutesAndSeconds(m, s) => IntToString(m) + " minuto(s) e " + IntToString(s) + " segundos"
    case SecondsOnly(s) => IntToString(s) + " segundos"
  }

  // ---------------------------------------------------------------------------
  // Position of a slide in the run
  // ---------------------------------------------------------------------------

  datatype Position = Initial | Intermediate | Final

  /**
    The first slide is initial (even when it is the only one), the last of two
    or more is final, and every other slide is intermediate.
   */
  function PositionTag(idx: nat, n: nat): (p: Position)
    ensures p == Initial <==> idx == 0
    ensures p == Final <==> 0 < idx && idx == n - 1
    ensures p == Intermediate <==> 0 < idx && idx != n - 1
  {
    if idx == 0 then Initial else if idx == n - 1 then Final else Intermediate
  }

  /** The tag word the generation prompt shows. */
  function TagName(p: Position): string {
    match p
    case Initial => "inicial"
    case Intermediate => "intermediário"
    case Final => "final"
  }

  /** A run of `n` slides has one initial slide, and one final slide only when `n > 1`. */
  lemma PositionsOfRun(n: nat)
    requires n >= 1
    ensures (set i | 0 <= i < n && PositionTag(i, n) == Initial) == {0}
    ensures (set i | 0 <= i < n && PositionTag(i, n) == Final) == if n > 1 then {n - 1} else {}
  {
  }
}
