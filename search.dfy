/** The search component: the query typed so far, the results shown for it, and which
    result row (if any) is selected. The functions below give the meaning of each change;
    the class SearchPanel holds the state and performs the changes. */
module Search {
  import opened Wrappers
  import opened Items
  import opened SearchBox
  import opened ResultView
  import JsNumber

  /** How many hits of a query are shown. */
  const MaxResults: nat := 6

  datatype State = State(query: string, results: seq<SearchItem>, selection: Option<int>)

  /** What a message does to the page. `TypeError` is the exception goToItem throws when
      it is handed the `undefined` that an out-of-range index yields. */
  datatype Navigation = Stay | Navigate(url: string) | TypeError

  /** The selection designates a row on display, or nothing. */
  predicate InRange(selection: Option<int>, n: nat) {
    match selection
    case None => true
    case Some(i) => 0 <= i < n
  }

  /** A message that can reach the component while `n` rows are displayed: rows send
      `select` with their own index. */
  predicate Fits(m: Message, n: nat) {
    m.Select? ==> 0 <= m.index < n
  }

  /** moveSelection: an undefined selection starts over at 0, a defined one moves by
      `offset`, both wrapped by JavaScript's `%`. */
  function Moved(selection: Option<int>, offset: int, n: nat): (r: int)
    requires n > 0
    ensures selection.None? ==> r == 0
    ensures InRange(selection, n) && offset >= 0 ==> 0 <= r < n
  {
    JsNumber.Rem(if selection.Some? then selection.value + offset else 0, n)
  }

  /** The selection after `process(m)`. */
  function NextSelection(s: State, m: Message): (r: Option<int>)
    ensures |s.results| == 0 ==> r == s.selection
    ensures |s.results| > 0 && m.Cancel? ==> r.None?
    ensures |s.results| > 0 && m.Select? ==> r == Some(m.index)
    ensures m.Go? ==> r == s.selection
    ensures InRange(s.selection, |s.results|) && Fits(m, |s.results|) ==> InRange(r, |s.results|)
  {
    var n := |s.results|;
    if n == 0 then s.selection
    else
      match m
      case Up => Some(Moved(s.selection, n - 1, n))
      case Down => Some(Moved(s.selection, 1, n))
      case Go => s.selection
      case Cancel => None
      case Select(i) => Some(i)
  }

  /** Where `process(m)` sends the browser: only `go` navigates, to the selected row or,
      with nothing selected, to the first one. */
  function NavigationOf(s: State, m: Message): (nav: Navigation)
    ensures !nav.Stay? <==> m.Go? && |s.results| > 0
    ensures InRange(s.selection, |s.results|) ==> !nav.TypeError?
    ensures nav.Navigate? ==>
      exists i :: 0 <= i < |s.results| && nav.url == Url(s.results[i])
  {
    if |s.results| == 0 || !m.Go? then Stay
    else
      var i := s.selection.GetOr(0);
      if 0 <= i < |s.results| then Navigate(Url(s.results[i])) else TypeError
  }

  /** `go` opens the selected row, or the first row when nothing is selected. */
  lemma GoTarget(s: State)
    requires |s.results| > 0 && InRange(s.selection, |s.results|)
    ensures s.selection.None? ==> NavigationOf(s, Go) == Navigate(Url(s.results[0]))
    ensures s.selection.Some? ==> NavigationOf(s, Go) == Navigate(Url(s.results[s.selection.value]))
  {
  }

  /** `fuse.search(query).map(({ item }) => item).slice(0, 6)`. */
  function TopHits(hits: seq<SearchItem>): (r: seq<SearchItem>)
    ensures |r| == if |hits| < MaxResults then |hits| else MaxResults
    ensures forall i :: 0 <= i < |r| ==> r[i] == hits[i]
  {
    hits[..if |hits| < MaxResults then |hits| else MaxResults]
  }

  /** The selection after the results change to `n` rows: cleared when there are none,
      otherwise a truthy (non-zero) index is taken modulo `n`. */
  function Reclamped(selection: Option<int>, n: nat): (r: Option<int>)
    ensures n == 0 ==> r.None?
    ensures n > 0 && selection.None? ==> r.None?
    ensures n > 0 && selection.Some? && selection.value >= 0 ==> InRange(r, n)
    ensures n > 0 && selection.Some? ==> r.Some? && (selection.value - r.value) % n == 0
    ensures n > 0 && selection.Some? && selection.value < 0 ==> 0 < r.value + n && r.value <= 0
  {
    if n == 0 then None
    else if selection.Some? && selection.value != 0 then
      var v := selection.value;
      var rem := JsNumber.Rem(v, n);
      ModUnique(v - rem, n, JsNumber.Quot(v, n), 0);
      Some(rem)
    else selection
  }

  /** The effect that runs when the query changes: an empty query keeps everything,
      otherwise the top hits replace the results and the selection is re-clamped. */
  function Refreshed(s: State, hits: seq<SearchItem>): (r: State)
    ensures r.query == s.query
    ensures s.query == "" ==> r == s
    ensures s.query != "" ==> r.results == TopHits(hits) && |r.results| <= MaxResults
    ensures s.query != "" ==> r.selection == Reclamped(s.selection, |r.results|)
    ensures s.query != "" && hits == [] ==> r.selection.None?
    ensures InRange(s.selection, |s.results|) ==> InRange(r.selection, |r.results|)
  {
    if s.query == "" then s
    else
      var shown := TopHits(hits);
      State(s.query, shown, Reclamped(s.selection, |shown|))
  }

  /** `setQuery(text)` followed by the effect; setting the same text again does not
      re-render, so the effect does not run. */
  function Typed(s: State, text: string, hits: seq<SearchItem>): (r: State)
    ensures r.query == text
    ensures text == s.query ==> r == s
    ensures text == "" ==> r.results == s.results && r.selection == s.selection
    ensures text != s.query && text != "" ==> r.results == TopHits(hits)
    ensures text != s.query && text != "" ==> r.selection == Reclamped(s.selection, |r.results|)
    ensures InRange(s.selection, |s.results|) ==> InRange(r.selection, |r.results|)
  {
    if text == s.query then s else Refreshed(s.(query := text), hits)
  }

  /** The state right after the component mounts: the initial props, with the effect run
      once for the initial query. */
  function Mounted(query: string, initialResults: Option<seq<SearchItem>>, hits: seq<SearchItem>): (r: State)
    ensures r.query == query
    ensures r.selection.None?
    ensures query == "" ==> r.results == initialResults.GetOr([])
    ensures query != "" ==> r.results == TopHits(hits)
  {
    Refreshed(State(query, initialResults.GetOr([]), None), hits)
  }

  // ----- Properties of the selection moves -----

  /** `down` from a selected row goes to the next one, wrapping after the last. */
  lemma DownStep(s: State, k: int)
    requires 0 <= k < |s.results|
    requires s.selection == Some(k)
    ensures NextSelection(s, Down) == Some(if k + 1 < |s.results| then k + 1 else 0)
  {
    var n := |s.results|;
    if k + 1 < n {
      ModUnique(k + 1, n, 0, k + 1);
    } else {
      ModUnique(k + 1, n, 1, 0);
    }
  }

  /** `up` from a selected row goes to the previous one, wrapping before the first. */
  lemma UpStep(s: State, k: int)
    requires 0 <= k < |s.results|
    requires s.selection == Some(k)
    ensures NextSelection(s, Up) == Some(if k > 0 then k - 1 else |s.results| - 1)
  {
    var n := |s.results|;
    if k > 0 {
      ModUnique(k + n - 1, n, 1, k - 1);
    } else {
      ModUnique(n - 1, n, 0, n - 1);
    }
  }

  /** With nothing selected, both `up` and `down` select the first row. */
  lemma FromNothingSelected(s: State)
    requires |s.results| > 0 && s.selection.None?
    ensures NextSelection(s, Up) == Some(0) && NextSelection(s, Down) == Some(0)
  {
  }

  /** `up` undoes `down` and `down` undoes `up`. */
  lemma UpDownInverse(s: State, k: int)
    requires 0 <= k < |s.results|
    requires s.selection == Some(k)
    ensures NextSelection(s.(selection := NextSelection(s, Down)), Up) == Some(k)
    ensures NextSelection(s.(selection := NextSelection(s, Up)), Down) == Some(k)
  {
    var n := |s.results|;
    DownStep(s, k);
    UpStep(s, k);
    var d := if k + 1 < n then k + 1 else 0;
    UpStep(s.(selection := Some(d)), d);
    var u := if k > 0 then k - 1 else n - 1;
    DownStep(s.(selection := Some(u)), u);
  }

  /** The selection after `count` presses of `down`. */
  function DownTimes(s: State, count: nat): (r: Option<int>)
    decreases count
  {
    if count == 0 then s.selection
    else NextSelection(s.(selection := DownTimes(s, count - 1)), Down)
  }

  /** `count` presses of `down` advance a selected row by `count`, around the list. */
  lemma {:induction false} DownTimesAdvance(s: State, k: int, count: nat)
    requires 0 <= k < |s.results|
    requires s.selection == Some(k)
    ensures DownTimes(s, count) == Some((k + count) % |s.results|)
    decreases count
  {
    var n := |s.results|;
    if count > 0 {
      DownTimesAdvance(s, k, count - 1);
      var j := (k + count - 1) % n;
      DownStep(s.(selection := Some(j)), j);
      ModSuccessor(k + count - 1, n);
    }
  }

  lemma ModSuccessor(a: nat, n: nat)
    requires n > 0
    ensures (if a % n + 1 < n then a % n + 1 else 0) == (a + 1) % n
  {
    var q := a / n;
    var r := a % n;
    if r + 1 < n {
      ModUnique(a + 1, n, q, r + 1);
    } else {
      ModUnique(a + 1, n, q + 1, 0);
    }
  }

  /** The remainder is the only value in `[0, n)` that differs from `a` by a multiple of `n`. */
  lemma ModUnique(a: int, n: int, q: int, r: int)
    requires n > 0 && 0 <= r < n && a == q * n + r
    ensures a % n == r
  {
    var d := q - a / n;
    assert d * n == a % n - r;
    assert (d >= 1 ==> d * n >= n) && (d <= -1 ==> d * n <= -n);
  }

  /** `n` presses of `down` with `n` rows displayed come back to the starting row. */
  lemma DownCycle(s: State, k: int)
    requires 0 <= k < |s.results|
    requires s.selection == Some(k)
    ensures DownTimes(s, |s.results|) == Some(k)
  {
    var n := |s.results|;
    DownTimesAdvance(s, k, n);
    ModUnique(k + n, n, 1, k);
  }

  // ----- Sessions -----

  /** What reaches the component: a key pressed in the search box, the pointer over a
      result row, or a new text in the box. */
  datatype Event = KeyPress(code: string) | Hover(row: nat) | Edit(text: string)

  /** One event against the current state. A hover only happens over a row on display. */
  function Step(s: State, search: string -> seq<SearchItem>, e: Event): (r: State)
    ensures !e.Edit? ==> r.query == s.query && r.results == s.results
    ensures e.KeyPress? && KeyMessage(e.code).None? ==> r == s
    ensures e.Hover? && e.row < |s.results| ==> r.selection == Some(e.row as int)
    ensures e.Hover? && e.row >= |s.results| ==> r == s
    ensures e.KeyPress? && KeyMessage(e.code).Some? ==>
      r.selection == NextSelection(s, KeyMessage(e.code).value)
    ensures e.Edit? ==> r == Typed(s, e.text, search(e.text))
  {
    match e
    case KeyPress(code) =>
      (match KeyMessage(code)
       case Some(m) => s.(selection := NextSelection(s, m))
       case None => s)
    case Hover(row) =>
      if row < |s.results| then s.(selection := NextSelection(s, Select(row))) else s
    case Edit(text) => Typed(s, text, search(text))
  }

  function Replay(s: State, search: string -> seq<SearchItem>, events: seq<Event>): State
    decreases |events|
  {
    if events == [] then s else Replay(Step(s, search, events[0]), search, events[1..])
  }

  /** Every event keeps the selection on a displayed row or clears it. */
  lemma StepKeepsSelectionInRange(s: State, search: string -> seq<SearchItem>, e: Event)
    requires InRange(s.selection, |s.results|)
    ensures InRange(Step(s, search, e).selection, |Step(s, search, e).results|)
  {
  }

  /** However the user types, moves and hovers after the page loads, the selection always
      designates a displayed row or nothing, so `go` never throws. */
  lemma {:induction false} SessionKeepsSelectionInRange(
    query: string, initialResults: Option<seq<SearchItem>>,
    search: string -> seq<SearchItem>, events: seq<Event>)
    ensures var s := Replay(Mounted(query, initialResults, search(query)), search, events);
      InRange(s.selection, |s.results|) && !NavigationOf(s, Go).TypeError?
  {
    ReplayKeepsSelectionInRange(Mounted(query, initialResults, search(query)), search, events);
  }

  lemma {:induction false} ReplayKeepsSelectionInRange(
    s: State, search: string -> seq<SearchItem>, events: seq<Event>)
    requires InRange(s.selection, |s.results|)
    ensures InRange(Replay(s, search, events).selection, |Replay(s, search, events).results|)
    decreases |events|
  {
    if events != [] {
      StepKeepsSelectionInRange(s, search, events[0]);
      ReplayKeepsSelectionInRange(Step(s, search, events[0]), search, events[1..]);
    }
  }

  /** A selection that still fits the new results is kept as it is. */
  lemma ReclampKeepsFittingSelection(selection: Option<int>, n: nat)
    requires InRange(selection, n)
    ensures Reclamped(selection, n) == selection
  {
    if selection.Some? {
      ModUnique(selection.value, n, 0, selection.value);
    }
  }

  // ----- The component -----

  class SearchPanel {
    /** The fuzzy searcher over the symbol index, from a query to its ranked hits. */
    const search: string -> seq<SearchItem>
    var query: string
    var results: seq<SearchItem>
    var selection: Option<int>

    function Snapshot(): State
      reads this
    {
      State(query, results, selection)
    }

    /** The selection designates a displayed row or nothing. */
    ghost predicate Valid()
      reads this
    {
      InRange(selection, |results|)
    }

    /** Mounting with the given props; `initialResults` may be absent. */
    constructor (search: string -> seq<SearchItem>, initialQuery: string, initialResults: Option<seq<SearchItem>>)
      ensures this.search == search
      ensures Valid()
      ensures Snapshot() == Mounted(initialQuery, initialResults, search(initialQuery))
    {
      this.search := search;
      query := initialQuery;
      results := initialResults.GetOr([]);
      selection := None;
      new;
      QueryChanged();
    }

    /** The effect that runs after the query changed. */
    method QueryChanged()
      requires Valid()
      modifies this`results, this`selection
      ensures Valid()
      ensures Snapshot() == Refreshed(old(Snapshot()), search(query))
    {
      if query == "" {
        return;
      }
      var newResults := TopHits(search(query));
      results := newResults;
      if |newResults| == 0 {
        selection := None;
      } else if selection.Some? && selection.value != 0 {
        selection := Some(JsNumber.Rem(selection.value, |newResults|));
      }
    }

    /** The search box's `onChange`. */
    method SetQuery(text: string)
      requires Valid()
      modifies this`query, this`results, this`selection
      ensures Valid()
      ensures Snapshot() == Typed(old(Snapshot()), text, search(text))
    {
      if text != query {
        query := text;
        QueryChanged();
      }
    }

    method MoveSelection(offset: int)
      requires |results| > 0
      modifies this`selection
      ensures selection == Some(Moved(old(selection), offset, |results|))
    {
      if selection.Some? {
        selection := Some(JsNumber.Rem(selection.value + offset, |results|));
      } else {
        selection := Some(JsNumber.Rem(0, |results|));
      }
    }

    /** `process`: reacts to one message and says where, if anywhere, the browser goes. */
    method Process(m: Message) returns (nav: Navigation)
      modifies this`selection
      ensures selection == NextSelection(old(Snapshot()), m)
      ensures nav == NavigationOf(old(Snapshot()), m)
      ensures old(Valid()) && Fits(m, |results|) ==> Valid()
    {
      nav := Stay;
      if |results| == 0 {
        return;
      }
      match m
      case Up => MoveSelection(|results| - 1);
      case Down => MoveSelection(1);
      case Go =>
        var i := selection.GetOr(0);
        if 0 <= i < |results| {
          nav := Navigate(Url(results[i]));
        } else {
          nav := TypeError;
        }
      case Cancel => selection := None;
      case Select(index) => selection := Some(index);
    }

    /** A click on a displayed row opens that row, whatever is selected. */
    method Click(row: nat) returns (nav: Navigation)
      requires row < |results|
      ensures nav == Navigate(Url(results[row]))
      ensures nav.Navigate? && (selection == Some(row as int) ==> nav == NavigationOf(Snapshot(), Go))
    {
      nav := Navigate(Url(results[row]));
    }

    /** The search box's `onKeyDown`: a mapped key has its default prevented and its
        message processed; any other key is left alone. */
    method KeyDown(code: string) returns (prevented: bool, nav: Navigation)
      modifies this`selection
      ensures prevented <==> KeyMessage(code).Some?
      ensures prevented ==> selection == NextSelection(old(Snapshot()), KeyMessage(code).value)
      ensures prevented ==> nav == NavigationOf(old(Snapshot()), KeyMessage(code).value)
      ensures !prevented ==> selection == old(selection) && nav == Stay
    {
      var message := KeyMessage(code);
      prevented := message.Some?;
      nav := Stay;
      if prevented {
        nav := Process(message.value);
      }
    }
  }
}
