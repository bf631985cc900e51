/**
 * The simulated progress of src/components/AnalysisStatus/AnalysisStatus.js
 * and src/pages/Analysis/AnalysisStatus.js (the same ticker in two pages):
 * once a second progress grows by ten, the current step follows it, and at
 * one hundred the analysis is complete and the timer stops.
 */
module AnalysisStatus {

  datatype Status = Processing | Completed | Failed

  const StepNames := ["콘텐츠 추출", "AI 분석 진행", "보고서 생성", "시각화 생성", "최종 결과 정리"]
  const StartMessage := "분석을 시작하고 있습니다..."
  const DoneMessage := "분석이 완료되었습니다!"

  /** `Math.min(prev + 10, 100)` */
  function Advance(p: nat): (q: nat)
    ensures q <= 100 && (p <= 100 ==> p <= q)
    ensures p < 90 ==> q == p + 10
    ensures p >= 90 ==> q == 100
  {
    if p + 10 < 100 then p + 10 else 100
  }

  /** `Math.floor((progress / 100) * steps.length)`. The product is rounded
      in floating point, but on the multiples of ten the ticker reaches it
      never falls on the wrong side of an integer, so its floor is the
      integer quotient taken here. */
  function StepOf(p: nat): (s: nat)
    ensures p < 100 ==> s < |StepNames|
    ensures s * 20 <= p < (s + 1) * 20
  {
    p * |StepNames| / 100
  }

  /** `${steps[step]}을 진행하고 있습니다...` */
  function StepMessage(step: nat): string
    requires step < |StepNames|
  {
    StepNames[step] + "을 진행하고 있습니다..."
  }

  /** The check mark of step `index` (counting from zero). */
  predicate StepDone(index: nat, currentStep: nat) {
    index < currentStep
  }

  /** While processing, step `index` is marked done exactly when progress has
      reached the end of its fifth of the bar; the marks only accumulate as
      progress grows. */
  lemma StepDoneAt(index: nat, p: nat, q: nat)
    requires p <= q
    ensures StepDone(index, StepOf(p)) <==> (index + 1) * 20 <= p
    ensures StepDone(index, StepOf(p)) ==> StepDone(index, StepOf(q))
  {
  }

  /** Progress after `n` ticks from zero. */
  function ProgressAfter(n: nat): nat {
    if n == 0 then 0 else Advance(ProgressAfter(n - 1))
  }

  /** Ten per tick until the bar is full: complete after exactly ten ticks. */
  lemma {:induction false} ProgressAfterTicks(n: nat)
    ensures ProgressAfter(n) == if n < 10 then 10 * n else 100
  {
    if n > 0 {
      ProgressAfterTicks(n - 1);
    }
  }

  /**
   * The page's state. `running` says whether the interval is still set;
   * nothing ever sets the `error` status.
   */
  class Ticker {
    var progress: nat
    var status: Status
    var currentStep: nat
    var message: string
    var running: bool

    predicate Valid()
      reads this
    {
      progress <= 100 && progress % 10 == 0
      && status != Failed
      && (status == Completed <==> progress == 100)
      && (running <==> status == Processing)
      && (status == Processing ==> currentStep == StepOf(progress))
      && (status == Completed ==> currentStep == |StepNames| && message == DoneMessage)
    }

    constructor ()
      ensures Valid()
      ensures progress == 0 && status == Processing && currentStep == 0 && message == StartMessage && running
    {
      progress, status, currentStep, message, running := 0, Processing, 0, StartMessage, true;
    }

    /** One firing of the interval. */
    method Tick()
      requires Valid() && running
      modifies this
      ensures Valid()
      ensures progress == Advance(old(progress)) && old(progress) < progress
      ensures progress == 100 ==> status == Completed && currentStep == |StepNames| && message == DoneMessage && !running
      ensures progress < 100 ==>
                status == Processing && running && currentStep == StepOf(progress)
                && currentStep < |StepNames| && message == StepMessage(currentStep)
    {
      var next := Advance(progress);
      if next >= 100 {
        status := Completed;
        message := DoneMessage;
        currentStep := |StepNames|;
        running := false;
      } else {
        var step := StepOf(next);
        currentStep := step;
        message := StepMessage(step);
      }
      progress := next;
    }
  }

  /** From a fresh page, the interval fires exactly ten times. */
  method TicksUntilComplete() returns (n: nat)
    ensures n == 10
  {
    var t := new Ticker();
    n := 0;
    while t.running
      invariant t.Valid()
      invariant n <= 10 && t.progress == 10 * n
      decreases 100 - t.progress
    {
      t.Tick();
      n := n + 1;
    }
  }
}
