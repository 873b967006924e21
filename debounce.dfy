/** The debounced search input. Every keystroke clears the timer held in
    `searchTimeout` and schedules a new one; when a timer fires, the search
    runs on whatever the search bar holds at that moment. The delay itself
    is not modelled: a timer is pending until it fires or is cleared. */
module Debounce {
  import opened Options

  /** The search bar's text, the handle last stored in `searchTimeout`
      (none before the first keystroke), the handles of this callback's
      timers that are scheduled and have neither fired nor been cleared,
      and the next handle `setTimeout` will hand out. */
  datatype SearchInput = SearchInput(text: string, timeout: Option<nat>, pending: set<nat>, next: nat)

  function Slot(timeout: Option<nat>): set<nat>
  {
    if timeout.Some? then {timeout.value} else {}
  }

  /** Only the timer in `searchTimeout` can be pending, and every handle
      handed out so far is below `next`. */
  ghost predicate WellFormed(d: SearchInput)
  {
    d.pending <= Slot(d.timeout) && (d.timeout.Some? ==> d.timeout.value < d.next)
  }

  /** The state before any keystroke. */
  function Initial(): (d: SearchInput)
    ensures WellFormed(d) && d.pending == {}
  {
    SearchInput("", None, {}, 0)
  }

  /** One keystroke leaving `text` in the bar: `clearTimeout(searchTimeout)`
      and then `searchTimeout = setTimeout(...)`. Afterwards exactly the new
      timer is pending, and no timer that was pending before still is. */
  function Input(d: SearchInput, text: string): (r: SearchInput)
    ensures r.text == text && r.timeout.Some?
    ensures WellFormed(d) ==> WellFormed(r) && r.pending == {r.timeout.value}
    ensures WellFormed(d) ==> r.pending * d.pending == {} && r.next == d.next + 1
  {
    SearchInput(text, Some(d.next), d.pending - Slot(d.timeout) + {d.next}, d.next + 1)
  }

  /** Timer `h` fires: it stops being pending, and (in a well-formed state)
      nothing is pending any more, so no second search can follow. */
  function Fire(d: SearchInput, h: nat): (r: SearchInput)
    requires h in d.pending
    ensures r.text == d.text && r.timeout == d.timeout && h !in r.pending
    ensures WellFormed(d) ==> WellFormed(r) && r.pending == {}
  {
    d.(pending := d.pending - {h})
  }

  /** At most one search is ever pending. */
  lemma AtMostOnePending(d: SearchInput)
    requires WellFormed(d)
    ensures |d.pending| <= 1
  {
    if d.timeout.Some? {
      assert d.pending == {} || d.pending == {d.timeout.value};
    }
  }

  /** A run of keystrokes, one text per keystroke. */
  function Typing(d: SearchInput, texts: seq<string>): SearchInput
    decreases |texts|
  {
    if texts == [] then d else Typing(Input(d, texts[0]), texts[1..])
  }

  /** After a run of keystrokes only the timer of the last one is pending,
      and the bar holds the last text, so the one search that can fire is
      the search for that text. */
  lemma {:induction false} TypingLeavesLast(d: SearchInput, texts: seq<string>)
    requires WellFormed(d) && texts != []
    ensures var r := Typing(d, texts);
      WellFormed(r) && r.text == texts[|texts| - 1] &&
      r.timeout == Some(d.next + |texts| - 1) && r.pending == {d.next + |texts| - 1}
    decreases |texts|
  {
    var d' := Input(d, texts[0]);
    if |texts| > 1 {
      TypingLeavesLast(d', texts[1..]);
    }
  }
}
