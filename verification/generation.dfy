/**
  The generation run: one script per selected page, each generated from the
  page text, the time the plan gives it, its position in the run and the
  script of the slide before it; then the whole "Generate" action, from the
  uploaded document to the saved record.
 */
module Generation {
  import opened Wrappers
  import opened Text
  import opened Dicts
  import opened Pages
  import opened Timing
  import opened SessionStore
  import opened SavedFiles

  /**
    What the generation prompt for one slide is built from: its number, its
    stripped content, the spoken duration, the position word and the stripped
    previous script.
   */
  datatype SlideRequest = SlideRequest(num: int, content: string, duration: string, tag: string, previous: string)

  /** The request of `gerar_roteiro_para_um_slide`. */
  function SlideRequestFor(num: int, text: string, seconds: int, position: Position, previous: string): (q: SlideRequest)
    ensures q.num == num && q.tag == TagName(position)
    ensures IsStripped(q.content) && IsStripped(q.previous)
    ensures IsTrimmingOf(text, q.content) && IsTrimmingOf(previous, q.previous)
    ensures seconds >= 60 ==> q.duration == IntToString(seconds / 60) + " minuto(s) e " + IntToString(seconds % 60) + " segundos"
    ensures seconds < 60 ==> q.duration == IntToString(seconds) + " segundos"
  {
    StripTrims(text);
    StripTrims(previous);
    SlideRequest(num, Strip(text), DurationPhrase(SplitDuration(seconds)), TagName(position), Strip(previous))
  }

  /** The script for one slide: the model's reply, stripped. */
  function GenerateSlide(gen: SlideRequest -> string, q: SlideRequest): (s: string)
    ensures IsStripped(s) && IsTrimmingOf(gen(q), s)
  {
    StripTrims(gen(q));
    Strip(gen(q))
  }

  /** One step of the loop: the slide number, its allotted seconds, the request sent and the script received. */
  datatype Generated = Generated(num: int, seconds: int, request: SlideRequest, script: string)

  /**
    The body of the loop for the `j`-th of `count` extracted pages, whose text
    is `text`, given the script generated just before it.
   */
  function Step(gen: SlideRequest -> string, plan: seq<PlanItem>, pagIni: int, count: nat,
                j: nat, text: string, previous: string): Generated
  {
    var num := pagIni + j;
    var seconds := LookupSeconds(plan, num);
    var request := SlideRequestFor(num, text, seconds, PositionTag(j, count), previous);
    Generated(num, seconds, request, GenerateSlide(gen, request))
  }

  /**
    What one step computes: the slide number, the plan's time for it, the
    position tag, and a request that carries the previous script unchanged
    when that script was itself generated (hence already stripped).
   */
  lemma StepFacts(gen: SlideRequest -> string, plan: seq<PlanItem>, pagIni: int, count: nat,
                  j: nat, text: string, previous: string)
    ensures var g := Step(gen, plan, pagIni, count, j, text, previous);
      && g.num == pagIni + j
      && g.seconds == LookupSeconds(plan, pagIni + j)
      && g.request.num == g.num
      && g.request.tag == TagName(PositionTag(j, count))
      && g.request.content == Strip(text)
      && g.request.duration == DurationPhrase(SplitDuration(g.seconds))
      && g.script == Strip(gen(g.request))
      && IsStripped(g.script)
      && (IsStripped(previous) ==> g.request.previous == previous)
  {
    if IsStripped(previous) {
      StripStripped(previous);
    }
  }

  /** What the loop passes as `roteiro_anterior` to step `j`: the script of step `j - 1`, or nothing. */
  function PreviousScript(log: seq<Generated>, j: nat): string
    requires j <= |log|
  {
    if j == 0 then "" else log[j - 1].script
  }

  /** The first `n` steps of the loop over `texts`, each continuing from the script of the one before. */
  function Steps(step: (nat, string, string) -> Generated, texts: seq<string>, n: nat): (log: seq<Generated>)
    requires n <= |texts|
    ensures |log| == n
  {
    if n == 0 then
      []
    else
      var before := Steps(step, texts, n - 1);
      before + [step(n - 1, texts[n - 1], PreviousScript(before, n - 1))]
  }

  /** Step `j` of the log is the step function applied to page `j` and the script of step `j - 1`. */
  lemma {:induction false} StepAt(step: (nat, string, string) -> Generated, texts: seq<string>, n: nat, j: nat)
    requires j < n <= |texts|
    ensures Steps(step, texts, n)[j] == step(j, texts[j], PreviousScript(Steps(step, texts, n), j))
    decreases n
  {
    var log := Steps(step, texts, n);
    var before := Steps(step, texts, n - 1);
    if j > 0 {
      assert log[j - 1] == before[j - 1];
    }
    if j < n - 1 {
      StepAt(step, texts, n - 1, j);
      assert log[j] == before[j];
    }
  }

  /** The `roteiros` dictionary after the loop: slide `pagIni + j` holds the script of step `j`. */
  function ScriptPairs(pagIni: int, log: seq<Generated>): (d: seq<(int, string)>)
    ensures |d| == |log|
    ensures forall j :: 0 <= j < |log| ==> d[j] == (pagIni + j, log[j].script)
  {
    seq(|log|, j requires 0 <= j < |log| => (pagIni + j, log[j].script))
  }

  /** Slide numbers `base, base + 1, ...` in order: the keys of the scripts dictionary during the loop. */
  predicate ConsecutiveKeys(d: seq<(int, string)>, base: int) {
    forall j :: 0 <= j < |d| ==> d[j].0 == base + j
  }

  /** `roteiros[num_slide] = roteiro_gerado` for the next slide number, which is new to the dictionary. */
  method StoreScript(d: seq<(int, string)>, base: int, v: string) returns (r: seq<(int, string)>)
    requires ConsecutiveKeys(d, base)
    ensures r == d + [(base + |d|, v)]
  {
    assert DistinctKeys(d);
    assert base + |d| !in Keys(d);
    r := Put(d, base + |d|, v);
  }

  /**
    The loop of the generation block, with its body `step` left as a
    parameter: the log of its steps and the `roteiros` dictionary it fills,
    one new key per slide, in slide order.
   */
  method GenerateScripts(step: (nat, string, string) -> Generated, pagIni: int, texts: seq<string>)
    returns (log: seq<Generated>, scripts: seq<(int, string)>)
    ensures log == Steps(step, texts, |texts|)
    ensures scripts == ScriptPairs(pagIni, log)
    ensures DistinctKeys(scripts)
  {
    log, scripts := [], [];
    var previous := "";
    var i := 0;
    while i < |texts|
      invariant 0 <= i <= |texts|
      invariant log == Steps(step, texts, i)
      invariant scripts == ScriptPairs(pagIni, log)
      invariant previous == PreviousScript(log, i)
    {
      var g := step(i, texts[i], previous);
      scripts := StoreScript(scripts, pagIni, g.script);
      log := log + [g];
      previous := g.script;
      i := i + 1;
    }
  }

  /** The loop body of a run over `count` pages with the given plan. */
  function StepFn(gen: SlideRequest -> string, plan: seq<PlanItem>, pagIni: int, count: nat): (nat, string, string) -> Generated {
    (j: nat, text: string, previous: string) => Step(gen, plan, pagIni, count, j, text, previous)
  }

  /** Slide `j` of a run's log: what `GeneratedLog` states for every slide. */
  predicate SlideGenerated(gen: SlideRequest -> string, plan: seq<PlanItem>, pagIni: int, pages: seq<string>, log: seq<Generated>, j: nat)
    requires j < |log| && j < |pages|
  {
    && log[j].num == pagIni + j
    && log[j].seconds == LookupSeconds(plan, pagIni + j)
    && log[j].request.num == pagIni + j
    && log[j].request.tag == TagName(PositionTag(j, |pages|))
    && log[j].request.content == Strip(pages[j])
    && log[j].request.duration == DurationPhrase(SplitDuration(log[j].seconds))
    && log[j].request.previous == PreviousScript(log, j)
    && log[j].script == Strip(gen(log[j].request))
  }

  /** Step `j` of a run's log is the loop body for page `j`, continuing from step `j - 1`. */
  lemma RunStepAt(gen: SlideRequest -> string, plan: seq<PlanItem>, pagIni: int, pages: seq<string>, j: nat)
    requires j < |pages|
    ensures var log := Steps(StepFn(gen, plan, pagIni, |pages|), pages, |pages|);
      log[j] == Step(gen, plan, pagIni, |pages|, j, pages[j], PreviousScript(log, j))
  {
    StepAt(StepFn(gen, plan, pagIni, |pages|), pages, |pages|, j);
  }

  lemma GeneratedAt(gen: SlideRequest -> string, plan: seq<PlanItem>, pagIni: int, pages: seq<string>, j: nat)
    requires j < |pages|
    ensures SlideGenerated(gen, plan, pagIni, pages, Steps(StepFn(gen, plan, pagIni, |pages|), pages, |pages|), j)
  {
    var log := Steps(StepFn(gen, plan, pagIni, |pages|), pages, |pages|);
    if j > 0 {
      RunStepAt(gen, plan, pagIni, pages, j - 1);
      StepFacts(gen, plan, pagIni, |pages|, j - 1, pages[j - 1], PreviousScript(log, j - 1));
    }
    RunStepAt(gen, plan, pagIni, pages, j);
    StepFacts(gen, plan, pagIni, |pages|, j, pages[j], PreviousScript(log, j));
  }

  /**
    The log of a run, slide by slide: slide `j` is page `pagIni + j`, gets the
    plan's time for that page, is tagged by its position among the pages, is
    asked with the stripped page text, continues from exactly the script of
    slide `j - 1` (nothing for the first), and its script is the stripped reply.
   */
  lemma GeneratedLog(gen: SlideRequest -> string, plan: seq<PlanItem>, pagIni: int, pages: seq<string>)
    ensures forall j :: 0 <= j < |pages| ==>
      SlideGenerated(gen, plan, pagIni, pages, Steps(StepFn(gen, plan, pagIni, |pages|), pages, |pages|), j)
  {
    forall j | 0 <= j < |pages|
      ensures SlideGenerated(gen, plan, pagIni, pages, Steps(StepFn(gen, plan, pagIni, |pages|), pages, |pages|), j)
    {
      GeneratedAt(gen, plan, pagIni, pages, j);
    }
  }

  /**
    The planner is told exactly the slides the loop then works on: entry `j`
    of the planning request carries the number step `j` looks its time up
    under, and the stripped text step `j` sends to the model.
   */
  lemma PlanMatchesSteps(gen: SlideRequest -> string, plan: seq<PlanItem>, pagIni: int, minutes: int, pages: seq<string>)
    ensures var q := PlanRequestFor(pages, minutes, pagIni);
      var log := Steps(StepFn(gen, plan, pagIni, |pages|), pages, |pages|);
      && |q.slides| == |log|
      && forall j :: 0 <= j < |log| ==> q.slides[j].0 == log[j].num && q.slides[j].1 == log[j].request.content
  {
    var log := Steps(StepFn(gen, plan, pagIni, |pages|), pages, |pages|);
    forall j | 0 <= j < |log|
      ensures log[j].num == pagIni + j && log[j].request.content == Strip(pages[j])
    {
      GeneratedAt(gen, plan, pagIni, pages, j);
    }
  }

  /** Why a run stopped before saving anything. */
  datatype RunError = DocumentReadError | NoTimePlan

  /** What a completed run produced. */
  datatype RunOutput = RunOutput(plan: seq<PlanItem>, log: seq<Generated>, scripts: seq<(int, string)>, record: RunRecord, fileName: string)

  /** The texts of the selected pages, the last page clamped to the document's length. */
  function SelectedPages(doc: seq<string>, pagIni: int, pagFim: int): (pages: seq<string>)
    requires 1 <= pagIni
    ensures |pages| == RangeCount(pagIni, ClampEnd(pagFim, |doc|))
    ensures forall k :: 0 <= k < |pages| ==> pagIni - 1 + k < |doc| && pages[k] == doc[pagIni - 1 + k]
  {
    ClampedExtraction(doc, pagIni, pagFim);
    ExtractText(doc, pagIni, ClampEnd(pagFim, |doc|)).value
  }

  /** The metadata saved with a run. */
  function RunMeta(sourceName: string, doc: seq<string>, pagIni: int, pagFim: int, minutes: int): (m: Meta)
    ensures m.sourceName == sourceName
    ensures m.totalPages == |doc| && m.startPage == pagIni && m.totalMinutes == minutes
    ensures m.endPage <= pagFim && m.endPage <= |doc| && (m.endPage == pagFim || m.endPage == |doc|)
  {
    Meta(sourceName, |doc|, pagIni, ClampEnd(pagFim, |doc|), minutes)
  }

  /**
    The "Generate" action. `doc` is the document's page texts, or `None` when
    it could not be opened; `createdAt` and `savedAt` are the two clock readings
    taken when the record is saved.
   */
  method Run(planner: PlanRequest -> PlanReply, gen: SlideRequest -> string, doc: Option<seq<string>>,
             sourceName: string, pagIni: int, pagFim: int, minutes: int, createdAt: string, savedAt: Timestamp)
    returns (r: Result<RunOutput, RunError>)
    requires 1 <= pagIni
    requires ValidTimestamp(savedAt)
    ensures r == Failure(DocumentReadError) <==> doc.None?
    ensures r == Failure(NoTimePlan) <==>
      doc.Some? && PlanUnusable(PlanTimes(planner, PlanRequestFor(SelectedPages(doc.value, pagIni, pagFim), minutes, pagIni)))
    ensures r.Success? ==>
      var pages := SelectedPages(doc.value, pagIni, pagFim);
      var o := r.value;
      && Some(o.plan) == PlanTimes(planner, PlanRequestFor(pages, minutes, pagIni))
      && |o.log| == |pages| && |o.scripts| == |pages|
      && o.log == Steps(StepFn(gen, o.plan, pagIni, |pages|), pages, |pages|)
      && o.scripts == ScriptPairs(pagIni, o.log)
      && o.record == SaveRecord(createdAt, RunMeta(sourceName, doc.value, pagIni, pagFim, minutes), o.scripts, pages, pagIni)
      && Load(Stored(o.record)) == Success(AsLoaded(o.scripts))
      && o.fileName == FileName(savedAt)
      && YearSlice(o.fileName) == Pad4(savedAt.year)
  {
    if doc.None? {
      return Failure(DocumentReadError);
    }
    var pages := SelectedPages(doc.value, pagIni, pagFim);
    var plan := PlanTimes(planner, PlanRequestFor(pages, minutes, pagIni));
    if PlanUnusable(plan) {
      return Failure(NoTimePlan);
    }
    var log, scripts := GenerateScripts(StepFn(gen, plan.value, pagIni, |pages|), pagIni, pages);
    var meta := RunMeta(sourceName, doc.value, pagIni, pagFim, minutes);
    var record := SaveRecord(createdAt, meta, scripts, pages, pagIni);
    SaveLoadRoundTrip(createdAt, meta, scripts, TopicOf(pages, pagIni));
    YearSliceOfFileName(savedAt);
    r := Success(RunOutput(plan.value, log, scripts, record, FileName(savedAt)));
  }
}
