/** The chat input widget: its state, the submit admission guard, the
    placeholder rotation, the rules that disable it, and the particle
    animation it runs over its own text after an accepted submit. */
module Input {
  import opened Options
  import opened JsText
  import opened Particles

  /** Minimum time between two submits that get past the throttle, in ms. */
  const SubmitThrottleMs: int := 1000
  /** Longest accepted input, in UTF-16 code units. */
  const MaxInputLength: int := 20000

  /** `agent.usageRemaining.messages`: a number, or null / undefined for
      "no limit". */
  datatype Usage = Null | Undefined | Count(n: int)

  /** The part of the external agent the widget reads. */
  datatype Agent = Agent(isInitialized: bool, messages: Usage)

  /** The guarded limit test of the callback and the submit path: only a
      number at or below zero means the limit is reached. */
  predicate Exhausted(m: Usage)
  {
    m != Null && m != Undefined && m.n <= 0
  }

  /** The unguarded `messages <= 0` of the mount effect, with JavaScript's
      relational semantics: null converts to 0, undefined to NaN. */
  function InitDisabledAsWritten(m: Usage): (r: bool)
    ensures r <==> m == Null || Exhausted(m)
  {
    match m
    case Null => 0 <= 0
    case Undefined => false
    case Count(n) => n <= 0
  }

  /** A limit-free agent (messages null) that is already initialized at
      mount disables the input as written, although the limit is not reached. */
  lemma InitDisabledAsWrittenBlocksUnlimited()
    ensures InitDisabledAsWritten(Null) && !Exhausted(Null)
  {
  }

  /** What the onInitialized callback sets `isDisabled` to. */
  function DisabledAfterInit(success: bool, m: Usage): (r: bool)
    ensures !success ==> r
    ensures success ==> (r <==> m.Count? && m.n <= 0)
  {
    if success then Exhausted(m) else true
  }

  /** The mount rule for an agent that is already initialized, with the
      null / undefined guard the other two limit tests have. */
  function InitDisabled(m: Usage): (r: bool)
    ensures r == DisabledAfterInit(true, m)
    ensures r <==> m.Count? && m.n <= 0
  {
    Exhausted(m)
  }

  /** Whether an agent ready at mount or one that becomes ready later, the
      widget starts disabled exactly when the limit is reached, and an
      unlimited agent is never disabled by it. */
  lemma InitRulesAgree(m: Usage)
    ensures InitDisabled(m) == DisabledAfterInit(true, m)
    ensures m == Null || m == Undefined ==> !InitDisabled(m) && !DisabledAfterInit(true, m)
    ensures InitDisabled(m) == InitDisabledAsWritten(m) <==> m != Null
  {
  }

  /** Why a submit stops, in the order the guard checks; `Accepted` if it
      gets through all of them. */
  datatype Verdict = Throttled | InvalidInput | NotInitialized | LimitReached | Busy | Accepted

  /** `!inputValue.trim() || inputValue.length > MAX_INPUT_LENGTH` rejects. */
  predicate ValidInput(s: string)
  {
    Trim(s) != "" && Utf16Length(s) <= MaxInputLength
  }

  /** The ordered chain of early returns of the submit handler. */
  function Admit(now: int, lastSubmitTime: int, inputValue: string, agent: Agent,
                 isDisabled: bool, isAnimating: bool, isResponding: bool): Verdict
  {
    if now - lastSubmitTime < SubmitThrottleMs then Throttled
    else if !ValidInput(inputValue) then InvalidInput
    else if !agent.isInitialized then NotInitialized
    else if Exhausted(agent.messages) then LimitReached
    else if isDisabled || isAnimating || isResponding then Busy
    else Accepted
  }

  /** `ValidInput` in terms of the text itself: not blank, and at most
      `MaxInputLength` UTF-16 units (so never longer in code points). */
  lemma ValidInputMeans(s: string)
    ensures ValidInput(s) <==> !IsBlank(s) && Utf16Length(s) <= MaxInputLength
    ensures ValidInput(s) ==> |s| <= MaxInputLength
  {
  }

  /** A submit is accepted exactly when it is at least a second after the
      last stamped one, the text is neither blank nor over the length limit,
      the agent is initialized, its limit (if any) is not reached and the
      widget is neither disabled, animating nor responding. */
  lemma AdmitAccepts(now: int, lastSubmitTime: int, inputValue: string, agent: Agent,
                     isDisabled: bool, isAnimating: bool, isResponding: bool)
    ensures Admit(now, lastSubmitTime, inputValue, agent, isDisabled, isAnimating, isResponding) == Accepted
      <==>
        now - lastSubmitTime >= SubmitThrottleMs &&
        !IsBlank(inputValue) && Utf16Length(inputValue) <= MaxInputLength &&
        agent.isInitialized &&
        (agent.messages.Null? || agent.messages.Undefined? || agent.messages.n > 0) &&
        !isDisabled && !isAnimating && !isResponding
  {
    ValidInputMeans(inputValue);
  }

  /** The throttle rejects exactly the submits less than a second after the
      last stamp; a reached limit is reported exactly for submits that got
      past the throttle, the text checks (`ValidInputMeans`) and the initialization check; a
      busy rejection needs one of the three flags; an over-long text never
      gets past the text check. */
  lemma AdmitRejects(now: int, lastSubmitTime: int, inputValue: string, agent: Agent,
                     isDisabled: bool, isAnimating: bool, isResponding: bool)
    ensures Admit(now, lastSubmitTime, inputValue, agent, isDisabled, isAnimating, isResponding) == Throttled
      <==> now - lastSubmitTime < SubmitThrottleMs
    ensures Admit(now, lastSubmitTime, inputValue, agent, isDisabled, isAnimating, isResponding) == LimitReached
      <==>
        now - lastSubmitTime >= SubmitThrottleMs && ValidInput(inputValue) &&
        agent.isInitialized && agent.messages.Count? && agent.messages.n <= 0
    ensures Admit(now, lastSubmitTime, inputValue, agent, isDisabled, isAnimating, isResponding) == Busy
      ==> isDisabled || isAnimating || isResponding
    ensures |inputValue| > MaxInputLength ==>
      Admit(now, lastSubmitTime, inputValue, agent, isDisabled, isAnimating, isResponding) in {Throttled, InvalidInput}
  {
    ValidInputMeans(inputValue);
  }

  /** `(prev + 1) % placeholders.length`; `None` stands for NaN, which an
      empty placeholder list produces and which then never goes away. */
  function NextIndex(prev: Option<nat>, count: nat): (r: Option<nat>)
    ensures prev.Some? && prev.value < count ==> r.Some? && r.value < count
    ensures count == 0 || prev.None? ==> r.None?
  {
    if prev.None? || count == 0 then None else Some((prev.value + 1) % count)
  }

  /** The placeholder index after `ticks` interval callbacks, starting at 0. */
  function IndexAfter(ticks: nat, count: nat): Option<nat>
  {
    if ticks == 0 then Some(0) else NextIndex(IndexAfter(ticks - 1, count), count)
  }

  /** The rotation visits the placeholders cyclically, one per tick. */
  lemma {:induction false} IndexAfterCycles(ticks: nat, count: nat)
    requires count > 0
    ensures IndexAfter(ticks, count) == Some(ticks % count)
  {
    if ticks > 0 {
      IndexAfterCycles(ticks - 1, count);
      ModSucc(ticks - 1, count);
    }
  }

  lemma ModSucc(k: nat, c: nat)
    requires c > 0
    ensures (k % c + 1) % c == (k + 1) % c
  {
    var q, r := k / c, k % c;
    assert k == q * c + r;
    if r + 1 < c {
      ModUnique(k + 1, c, q, r + 1);
      ModUnique(r + 1, c, 0, r + 1);
    } else {
      assert (q + 1) * c == q * c + c;
      ModUnique(k + 1, c, q + 1, 0);
      ModUnique(r + 1, c, 1, 0);
    }
  }

  /** Euclidean division is unique: a quotient and an in-range remainder
      that rebuild `a` are `a / c` and `a % c`. */
  lemma ModUnique(a: int, c: int, q: int, r: int)
    requires c > 0 && 0 <= r < c && a == q * c + r
    ensures a % c == r && a / c == q
  {
    var q', r' := a / c, a % c;
    assert a == q' * c + r';
    if q > q' {
      var d := q - q';
      assert d * c == q * c - q' * c;
      MulAtLeast(d, c);
    } else if q < q' {
      var d := q' - q;
      assert d * c == q' * c - q * c;
      MulAtLeast(d, c);
    }
  }

  lemma {:induction false} MulAtLeast(d: int, c: int)
    requires d >= 1 && c > 0
    ensures d * c >= c
    decreases d
  {
    if d > 1 {
      MulAtLeast(d - 1, c);
      assert d * c == (d - 1) * c + c;
    }
  }

  /** The placeholder text: the disabled text first, then the responding
      text, then the current rotating placeholder (`None` when the index
      misses the list, where JavaScript yields undefined). */
  function PlaceholderText(isDisabled: bool, isResponding: bool, disabledText: string,
                           respondingText: string, placeholders: seq<string>, index: Option<nat>): (r: Option<string>)
    ensures isDisabled ==> r == Some(disabledText)
    ensures !isDisabled && isResponding ==> r == Some(respondingText)
    ensures !isDisabled && !isResponding ==>
      (r.Some? <==> index.Some? && index.value < |placeholders|) &&
      (r.Some? ==> r == Some(placeholders[index.value]))
  {
    if isDisabled then Some(disabledText)
    else if isResponding then Some(respondingText)
    else if index.Some? && index.value < |placeholders| then Some(placeholders[index.value])
    else None
  }

  /** With a non-empty list, some text is shown however many ticks have passed. */
  lemma PlaceholderAlwaysShown(isDisabled: bool, isResponding: bool, disabledText: string,
                               respondingText: string, placeholders: seq<string>, ticks: nat)
    requires placeholders != []
    ensures PlaceholderText(isDisabled, isResponding, disabledText, respondingText,
                            placeholders, IndexAfter(ticks, |placeholders|)) ==
      if isDisabled then Some(disabledText)
      else if isResponding then Some(respondingText)
      else Some(placeholders[ticks % |placeholders|])
  {
    IndexAfterCycles(ticks, |placeholders|);
  }

  /** The `HeylockInput` component's state. `particles` is the animation
      list, `frontier` the sweep position of the frame that is scheduled next
      (if `frameScheduled`), and `awaitingInit` whether the onInitialized
      subscription is live. */
  class HeylockInput {
    const disabledText: string
    const respondingText: string
    const placeholders: seq<string>

    var isAnimating: bool
    var isDisabled: bool
    var isResponding: bool
    var inputValue: string
    var lastSubmitTime: int
    var placeholderIndex: Option<nat>
    var particles: seq<Particle>
    var frontier: int
    var frameScheduled: bool
    var awaitingInit: bool

    /** A frame is only ever scheduled while the widget is animating, so an
      accepted submit (which needs `!isAnimating`) never starts a second
      chain of frames beside a running one. */
    predicate Valid()
      reads this
    {
      frameScheduled ==> isAnimating
    }

    /** First render: `isDisabled` starts from the `disabled` prop. */
    constructor (disabled: bool, disabledText: string, respondingText: string, placeholders: seq<string>)
      ensures this.disabledText == disabledText && this.respondingText == respondingText
      ensures this.placeholders == placeholders
      ensures isDisabled == disabled
      ensures !isAnimating && !isResponding && inputValue == "" && lastSubmitTime == 0
      ensures placeholderIndex == Some(0) && particles == [] && frontier == 0
      ensures !frameScheduled && !awaitingInit
      ensures Valid()
    {
      this.disabledText := disabledText;
      this.respondingText := respondingText;
      this.placeholders := placeholders;
      isAnimating := false;
      isDisabled := disabled;
      isResponding := false;
      inputValue := "";
      lastSubmitTime := 0;
      placeholderIndex := Some(0);
      particles := [];
      frontier := 0;
      frameScheduled := false;
      awaitingInit := false;
    }

    /** The placeholder paragraph: rendered only while the input is empty,
      with no text either when the index misses the list. */
    function Placeholder(): (r: Option<string>)
      reads this
      ensures inputValue != "" ==> r.None?
      ensures inputValue == "" && isDisabled ==> r == Some(disabledText)
      ensures inputValue == "" && !isDisabled && isResponding ==> r == Some(respondingText)
      ensures inputValue == "" && !isDisabled && !isResponding ==>
        (r.Some? <==> placeholderIndex.Some? && placeholderIndex.value < |placeholders|) &&
        (r.Some? ==> r == Some(placeholders[placeholderIndex.value]))
    {
      if inputValue != "" then None
      else PlaceholderText(isDisabled, isResponding, disabledText, respondingText, placeholders, placeholderIndex)
    }

    /** Mount effect: an initialized agent sets `isDisabled` from its limit
      (with the corrected rule); otherwise the widget subscribes to onInitialized. */
    method Mount(agent: Agent)
      modifies this`isDisabled, this`awaitingInit
      ensures agent.isInitialized ==> isDisabled == InitDisabled(agent.messages) && !awaitingInit
      ensures !agent.isInitialized ==> isDisabled == old(isDisabled) && awaitingInit
    {
      if agent.isInitialized {
        isDisabled := InitDisabled(agent.messages);
        awaitingInit := false;
      } else {
        awaitingInit := true;
      }
    }

    /** The onInitialized callback: a failed start disables the widget, a
      successful one disables it only if the limit is reached; then it
      unsubscribes. */
    method OnInitialized(success: bool, messages: Usage)
      requires awaitingInit
      modifies this`isDisabled, this`awaitingInit
      ensures isDisabled == DisabledAfterInit(success, messages)
      ensures !awaitingInit
    {
      if success {
        isDisabled := Exhausted(messages);
      } else {
        isDisabled := true;
      }
      awaitingInit := false;
    }

    /** Effect on the `disabled` prop: only `true` is ever propagated. */
    method DisabledPropChanged(disabled: bool)
      modifies this`isDisabled
      ensures isDisabled == (disabled || old(isDisabled))
      ensures old(isDisabled) ==> isDisabled
    {
      if disabled == false {
        return;
      }
      isDisabled := disabled;
    }

    /** The placeholder interval callback. */
    method TickPlaceholder()
      modifies this`placeholderIndex
      ensures placeholderIndex == NextIndex(old(placeholderIndex), |placeholders|)
      ensures old(placeholderIndex).Some? && old(placeholderIndex).value < |placeholders| ==>
        placeholderIndex.Some? && placeholderIndex.value < |placeholders|
    {
      placeholderIndex := NextIndex(placeholderIndex, |placeholders|);
    }

    /** Typing is taken only while the widget is neither animating nor disabled. */
    method InputChange(value: string)
      modifies this`inputValue
      ensures inputValue == if !isAnimating && !isDisabled then value else old(inputValue)
    {
      if !isAnimating && !isDisabled {
        inputValue := value;
      }
    }

    /** `draw`: samples the rasterised input text into a fresh particle list.
      A missing input element or canvas (`raster == null`) makes it a no-op. */
    method Draw(inputMounted: bool, raster: array?<byte>)
      requires raster != null ==> raster.Length == BufferLength
      modifies this`particles
      ensures inputMounted && raster != null ==> particles == Sampled(raster[..])
      ensures !(inputMounted && raster != null) ==> particles == old(particles)
    {
      if !inputMounted || raster == null {
        return;
      }
      particles := SamplePixels(raster);
    }

    /** The validation part of the submit handler: the throttle stamp is
      taken as soon as the throttle passes, and a reached limit disables the
      widget. */
    method Validate(now: int, agent: Agent) returns (v: Verdict)
      modifies this`lastSubmitTime, this`isDisabled
      ensures v == Admit(now, old(lastSubmitTime), inputValue, agent, old(isDisabled), isAnimating, isResponding)
      ensures lastSubmitTime == if v == Throttled then old(lastSubmitTime) else now
      ensures isDisabled == (old(isDisabled) || v == LimitReached)
    {
      if now - lastSubmitTime < SubmitThrottleMs {
        return Throttled;
      }
      lastSubmitTime := now;
      if Trim(inputValue) == "" || Utf16Length(inputValue) > MaxInputLength {
        return InvalidInput;
      }
      if !agent.isInitialized {
        return NotInitialized;
      }
      if Exhausted(agent.messages) {
        isDisabled := true;
        return LimitReached;
      }
      if isDisabled || isAnimating || isResponding {
        return Busy;
      }
      return Accepted;
    }

    /** The accepted part of the submit handler: animating starts, the text
      is sampled into particles, the first frame is scheduled at the
      right-most particle when the input element exists, and responding
      starts. */
    method Start(inputMounted: bool, raster: array?<byte>)
      requires raster != null ==> raster.Length == BufferLength
      modifies this`isAnimating, this`particles, this`frontier, this`frameScheduled, this`isResponding
      ensures isAnimating && isResponding
      ensures inputMounted && raster != null ==> particles == Sampled(raster[..])
      ensures !(inputMounted && raster != null) ==> particles == old(particles)
      ensures inputMounted ==> frameScheduled && frontier == MaxX(particles)
      ensures !inputMounted ==> frameScheduled == old(frameScheduled) && frontier == old(frontier)
      ensures Valid()
    {
      isAnimating := true;
      Draw(inputMounted, raster);
      if inputMounted {
        frontier := MaxX(particles);
        frameScheduled := true;
      }
      isResponding := true;
    }

    /** The submit handler up to the point where it awaits the reply stream.
      `now` is the clock, `raster` the canvas buffer the input text is drawn
      into (null when there is no canvas). */
    method Submit(now: int, agent: Agent, inputMounted: bool, raster: array?<byte>) returns (v: Verdict)
      requires Valid()
      requires raster != null ==> raster.Length == BufferLength
      modifies this`lastSubmitTime, this`isDisabled, this`isAnimating, this`particles,
               this`frontier, this`frameScheduled, this`isResponding
      ensures v == Admit(now, old(lastSubmitTime), inputValue, agent, old(isDisabled), old(isAnimating), old(isResponding))
      ensures lastSubmitTime == if v == Throttled then old(lastSubmitTime) else now
      ensures isDisabled == (old(isDisabled) || v == LimitReached)
      ensures v != Accepted ==>
        isAnimating == old(isAnimating) && isResponding == old(isResponding) &&
        particles == old(particles) && frontier == old(frontier) && frameScheduled == old(frameScheduled)
      ensures v == Accepted ==> isAnimating && isResponding
      ensures v == Accepted && inputMounted && raster != null ==> particles == Sampled(raster[..])
      ensures v == Accepted && !(inputMounted && raster != null) ==> particles == old(particles)
      ensures v == Accepted && inputMounted ==> frameScheduled && frontier == MaxX(particles)
      ensures v == Accepted && !inputMounted ==> frameScheduled == old(frameScheduled) && frontier == old(frontier)
      ensures v == Accepted ==> !old(frameScheduled)
      ensures Valid()
    {
      v := Validate(now, agent);
      if v == Accepted {
        Start(inputMounted, raster);
      }
    }

    /** The rest of the submit handler, once the reply stream is exhausted:
      responding ends, and a limit now reached disables the widget. */
    method StreamFinished(messages: Usage)
      modifies this`isResponding, this`isDisabled
      ensures !isResponding
      ensures isDisabled == (old(isDisabled) || Exhausted(messages))
    {
      isResponding := false;
      if Exhausted(messages) {
        isDisabled := true;
      }
    }

    /** One animation frame with frontier `frontier`. A non-empty result
      schedules the next frame eight units further left; an empty one clears
      the input and ends the animation. */
    method AnimateFrame(draws: seq<RandomDraw>)
      requires Valid()
      requires frameScheduled && |draws| == |particles|
      modifies this`particles, this`frontier, this`frameScheduled, this`inputValue, this`isAnimating
      ensures particles == Step(old(particles), old(frontier), draws)
      ensures particles != [] ==>
        frameScheduled && frontier == old(frontier) - FrontierStep &&
        inputValue == old(inputValue) && isAnimating == old(isAnimating)
      ensures particles == [] ==>
        !frameScheduled && frontier == old(frontier) && inputValue == "" && !isAnimating
      ensures Valid()
    {
      particles := StepParticles(particles, frontier, draws);
      if |particles| > 0 {
        frontier := frontier - 8;
      } else {
        inputValue := "";
        isAnimating := false;
        frameScheduled := false;
      }
    }
  }
}
