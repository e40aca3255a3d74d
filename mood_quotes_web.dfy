/** The web client (mood-quotes-web/src/App.jsx): the mood-selection state
    machine, the values derived from it, and the quote request's effect on
    the displayed quote. The HTTP request is a parameter. */
module MoodQuotesWeb {
  import opened Wrappers
  import opened Text

  /** The most moods that can be selected at once. */
  const MaxSelect: nat := 3

  /** The mood chips, in display order. */
  const Moods: seq<string> := [
    "happy", "sad", "anxious", "angry", "motivated", "lonely", "grateful", "tired",
    "calm", "stressed", "curious", "inspired", "overwhelmed", "hopeful", "determined",
    "bored", "nostalgic", "confident", "fearful", "excited", "peaceful", "frustrated", "burnt out", "creative"
  ]

  const NeutralMood: string := "neutral"
  const Separator: string := ", "
  const FallbackQuote: string := "Keep going. Your next step matters most."
  const ErrorQuote: string := "\U{26A0}\U{FE0F} Error fetching quote."

  predicate NoDuplicates(s: seq<string>) {
    forall i, j :: 0 <= i < j < |s| ==> s[i] != s[j]
  }

  /** A selection the chips can produce: at most `MaxSelect` moods, none twice. */
  predicate ValidSelection(s: seq<string>) {
    |s| <= MaxSelect && NoDuplicates(s)
  }

  // ---------------------------------------------------------------------------
  // Removing a mood: `prev.filter((x) => x !== m)`

  function Without(s: seq<string>, m: string): (r: seq<string>)
    ensures |r| <= |s|
    ensures forall x :: x in r ==> x in s && x != m
  {
    if s == [] then []
    else (if s[0] == m then [] else [s[0]]) + Without(s[1..], m)
  }

  /** Filtering removes every occurrence of `m` and keeps every other mood
      as often as it occurs. */
  lemma {:induction false} WithoutMultiset(s: seq<string>, m: string)
    ensures multiset(Without(s, m)) == multiset(s)[m := 0]
  {
    if s != [] {
      WithoutMultiset(s[1..], m);
      assert s == [s[0]] + s[1..];
    }
  }

  /** Filtering keeps every mood other than `m`. */
  lemma {:induction false} WithoutKeepsOthers(s: seq<string>, m: string)
    ensures forall x :: x != m && x in s ==> x in Without(s, m)
  {
    if s != [] {
      WithoutKeepsOthers(s[1..], m);
      assert forall x :: x in s ==> x == s[0] || x in s[1..];
    }
  }

  /** Filtering distributes over concatenation, so it keeps the relative order
      of everything it keeps. */
  lemma {:induction false} WithoutAppend(a: seq<string>, b: seq<string>, m: string)
    ensures Without(a + b, m) == Without(a, m) + Without(b, m)
  {
    if a == [] {
      assert a + b == b;
    } else {
      assert (a + b)[0] == a[0];
      assert (a + b)[1..] == a[1..] + b;
      WithoutAppend(a[1..], b, m);
    }
  }

  /** Filtering out a mood that is not there changes nothing. */
  lemma {:induction false} WithoutAbsent(s: seq<string>, m: string)
    requires m !in s
    ensures Without(s, m) == s
  {
    if s != [] {
      WithoutAbsent(s[1..], m);
    }
  }

  /** In a list without duplicates, the entry at index `k` occurs neither
      before nor after `k`. */
  lemma OccursOnlyAt(s: seq<string>, k: nat)
    requires NoDuplicates(s) && k < |s|
    ensures s[k] !in s[..k] && s[k] !in s[k + 1..]
  {
    var pre, post := s[..k], s[k + 1..];
    forall j | 0 <= j < |pre| ensures pre[j] != s[k] {
      assert pre[j] == s[j];
    }
    forall j | 0 <= j < |post| ensures post[j] != s[k] {
      assert post[j] == s[k + 1 + j];
    }
  }

  /** Filtering out a mood that occurs once, between `pre` and `post`,
      leaves `pre` followed by `post`. */
  lemma WithoutSplice(pre: seq<string>, m: string, post: seq<string>)
    requires m !in pre && m !in post
    ensures Without(pre + [m] + post, m) == pre + post
  {
    var front := pre + [m];
    WithoutAppend(front, post, m);
    WithoutAppend(pre, [m], m);
    WithoutAbsent(pre, m);
    WithoutAbsent(post, m);
    assert Without([m], m) == [] by { assert [m][1..] == []; }
    assert Without(front, m) == pre;
  }

  /** In a list without duplicates, filtering out the entry at index `k`
      yields the entries before it followed by the entries after it. */
  lemma WithoutAt(s: seq<string>, k: nat)
    requires NoDuplicates(s) && k < |s|
    ensures Without(s, s[k]) == s[..k] + s[k + 1..]
  {
    OccursOnlyAt(s, k);
    assert s == s[..k] + [s[k]] + s[k + 1..];
    WithoutSplice(s[..k], s[k], s[k + 1..]);
  }

  /** Filtering never introduces a duplicate. */
  lemma {:induction false} WithoutNoDuplicates(s: seq<string>, m: string)
    requires NoDuplicates(s)
    ensures NoDuplicates(Without(s, m))
  {
    if s != [] {
      WithoutNoDuplicates(s[1..], m);
      var rest := Without(s[1..], m);
      assert s[0] !in s[1..] by {
        forall j | 0 <= j < |s[1..]| ensures s[1..][j] != s[0] {
          assert s[1..][j] == s[1 + j];
        }
      }
      assert s[0] !in rest;
    }
  }

  // ---------------------------------------------------------------------------
  // Toggling a mood

  /** The selection and the limit note after a toggle. */
  datatype Toggled = Toggled(selected: seq<string>, limitNote: bool)

  /** The effect of `toggleMood(m)` on `selected` and `limitNote`. Unless
      the toggle is rejected (the note is raised and the selection kept),
      it flips whether `m` is selected; it never changes whether any other
      mood is selected. */
  function Toggle(prev: seq<string>, m: string): (r: Toggled)
    ensures r.limitNote ==> r.selected == prev
    ensures !r.limitNote ==> (m in r.selected <==> m !in prev)
    ensures forall x :: x != m ==> (x in r.selected <==> x in prev)
  {
    WithoutKeepsOthers(prev, m);
    if m in prev then Toggled(Without(prev, m), false)
    else if |prev| >= MaxSelect then Toggled(prev, true)
    else Toggled(prev + [m], false)
  }

  /** Toggling a selected mood removes every occurrence of it and nothing else. */
  lemma ToggleRemovesEveryOccurrence(prev: seq<string>, m: string)
    requires m in prev
    ensures m !in Toggle(prev, m).selected
    ensures multiset(Toggle(prev, m).selected) == multiset(prev)[m := 0]
    ensures !Toggle(prev, m).limitNote
  {
    WithoutMultiset(prev, m);
  }

  /** ... and keeps the other moods in their relative order. */
  lemma ToggleRemovalKeepsOrder(prev: seq<string>, k: nat)
    requires NoDuplicates(prev) && k < |prev|
    ensures Toggle(prev, prev[k]).selected == prev[..k] + prev[k + 1..]
  {
    WithoutAt(prev, k);
  }

  /** Toggling an absent mood below the cap appends it; earlier moods stay put. */
  lemma ToggleAppends(prev: seq<string>, m: string)
    requires m !in prev && |prev| < MaxSelect
    ensures Toggle(prev, m).selected == prev + [m]
    ensures Toggle(prev, m).selected[..|prev|] == prev
    ensures !Toggle(prev, m).limitNote
  {
  }

  /** Toggling an absent mood at or over the cap changes nothing but raises the note. */
  lemma ToggleRejects(prev: seq<string>, m: string)
    requires m !in prev && |prev| >= MaxSelect
    ensures Toggle(prev, m) == Toggled(prev, true)
  {
  }

  /** The note is up after a toggle exactly when that toggle was rejected,
      and a rejected toggle leaves the selection as it was. */
  lemma LimitNoteIffRejected(prev: seq<string>, m: string)
    ensures Toggle(prev, m).limitNote <==> m !in prev && |prev| >= MaxSelect
    ensures Toggle(prev, m).limitNote ==> Toggle(prev, m).selected == prev
  {
  }

  /** Toggling keeps a selection valid: at most three moods, none twice. */
  lemma ToggleKeepsValid(prev: seq<string>, m: string)
    requires ValidSelection(prev)
    ensures ValidSelection(Toggle(prev, m).selected)
  {
    if m in prev {
      WithoutNoDuplicates(prev, m);
    }
  }

  /** Toggling an added mood again takes the selection back to where it was. */
  lemma ToggleUndoesAppend(prev: seq<string>, m: string)
    requires m !in prev && |prev| < MaxSelect
    ensures Toggle(Toggle(prev, m).selected, m) == Toggled(prev, false)
  {
    WithoutAppend(prev, [m], m);
    WithoutAbsent(prev, m);
    assert Without([m], m) == [];
  }

  /** Four clicks on distinct moods from an empty selection: the first three
      are kept in click order and the fourth raises the note. */
  lemma FourDistinctClicks(a: string, b: string, c: string, d: string)
    requires a != b && a != c && a != d && b != c && b != d && c != d
    ensures var s1 := Toggle([], a).selected;
      var s2 := Toggle(s1, b).selected;
      var s3 := Toggle(s2, c).selected;
      Toggle(s3, d) == Toggled([a, b, c], true)
  {
  }

  /** The chip's `atLimit`: the mood is not selected and the cap is reached.
      Clicking such a chip raises the note and changes nothing else. */
  predicate AtLimit(selected: seq<string>, m: string): (r: bool)
    ensures r ==> Toggle(selected, m) == Toggled(selected, true)
  {
    !(m in selected) && |selected| >= MaxSelect
  }

  /** A chip is dimmed exactly when clicking it would be rejected. */
  lemma AtLimitIffRejected(selected: seq<string>, m: string)
    ensures AtLimit(selected, m) <==> Toggle(selected, m).limitNote
    ensures AtLimit(selected, m) ==> Toggle(selected, m).selected == selected
  {
  }

  /** The "Get Quote" button is enabled when no request is loading and at
      least one mood is selected; the request it starts then carries the
      selected moods joined. */
  predicate CanGetQuote(loading: bool, selected: seq<string>): (r: bool)
    ensures loading ==> !r
    ensures r ==> SelectedStr(selected) == Join(selected, Separator)
  {
    !(loading || |selected| == 0)
  }

  /** While a request is loading the button is disabled; otherwise it is
      enabled exactly when the display string is a join of selected moods. */
  lemma GuardBlocksWhileLoading(selected: seq<string>)
    ensures !CanGetQuote(true, selected)
    ensures CanGetQuote(false, selected) <==> |selected| > 0
    ensures CanGetQuote(false, selected) ==> SelectedStr(selected) == Join(selected, Separator)
  {
  }

  // ---------------------------------------------------------------------------
  // The display string `selectedStr`

  /** "neutral" for no selection, otherwise a string that starts with the
      first selected mood and is just that mood when there is one. */
  function SelectedStr(selected: seq<string>): (r: string)
    ensures |selected| == 0 ==> r == NeutralMood
    ensures |selected| > 0 ==> |selected[0]| <= |r| && r[..|selected[0]|] == selected[0]
    ensures |selected| == 1 ==> r == selected[0]
  {
    if |selected| > 0 then Join(selected, Separator) else NeutralMood
  }

  lemma SelectedStrExamples()
    ensures SelectedStr(["sad", "tired"]) == "sad, tired"
    ensures SelectedStr([]) == "neutral"
  {
    var xs := ["sad", "tired"];
    assert xs[1..] == ["tired"];
    assert Join(xs, Separator) == "sad" + Separator + "tired";
  }

  /** Selecting one more mood appends ", " and that mood to the display string. */
  lemma SelectedStrAfterAppend(prev: seq<string>, m: string)
    requires m !in prev && 0 < |prev| < MaxSelect
    ensures SelectedStr(Toggle(prev, m).selected) == SelectedStr(prev) + ", " + m
  {
    JoinSnoc(prev, m, Separator);
  }

  /** A non-empty selection of non-empty moods gives a non-empty display
      string that begins with the first mood. */
  lemma SelectedStrOfSelection(selected: seq<string>)
    requires |selected| > 0 && forall i :: 0 <= i < |selected| ==> selected[i] != ""
    ensures SelectedStr(selected) != ""
    ensures SelectedStr(selected)[..|selected[0]|] == selected[0]
  {
    JoinEmptyIff(selected, Separator);
  }

  /** Every chip label is non-empty. */
  lemma MoodsNonEmpty()
    ensures forall i :: 0 <= i < |Moods| ==> Moods[i] != ""
  {
  }

  // ---------------------------------------------------------------------------
  // The quote request

  /** What `res.json()` gives: a body that does not parse, or an object whose
      `quote` field is a string or absent. */
  datatype JsonBody = Malformed | Json(quote: Option<string>)

  /** How the request ends: `fetch` rejects, or a response arrives with its
      `res.ok` flag and its body. */
  datatype FetchOutcome = TransportError | Received(ok: bool, body: JsonBody)

  /** The quote shown once the request has ended. */
  function Shown(o: FetchOutcome): (text: string)
    ensures text != ""
    ensures o.TransportError? || !o.ok || o.body.Malformed? ==> text == ErrorQuote
    ensures o.Received? && o.ok && o.body.Json? && o.body.quote.Some? && o.body.quote.value != ""
      ==> text == o.body.quote.value
    ensures o.Received? && o.ok && o.body.Json? && (o.body.quote.None? || o.body.quote.value == "")
      ==> text == FallbackQuote
  {
    match o
    case TransportError => ErrorQuote
    case Received(ok, body) =>
      if !ok then ErrorQuote
      else match body
        case Malformed => ErrorQuote
        case Json(q) => if q.Some? && q.value != "" then q.value else FallbackQuote
  }

  /** The state of the App component. */
  class MoodQuotesApp {
    var selected: seq<string>
    var quote: string
    var loading: bool
    var limitNote: bool

    ghost predicate Valid()
      reads this
    {
      ValidSelection(selected)
    }

    /** The initial state: nothing selected, no quote, not loading, no note. */
    constructor ()
      ensures Valid()
      ensures selected == [] && quote == "" && !loading && !limitNote
    {
      selected := [];
      quote := "";
      loading := false;
      limitNote := false;
    }

    /** `toggleMood(m)`: clear the note, then remove `m`, append it, or
        (at the cap) raise the note. */
    method ToggleMood(m: string)
      modifies this
      ensures Toggled(selected, limitNote) == Toggle(old(selected), m)
      ensures quote == old(quote) && loading == old(loading)
      ensures old(Valid()) ==> Valid()
    {
      limitNote := false;
      if m in selected {
        selected := Without(selected, m);
      } else if |selected| >= MaxSelect {
        limitNote := true;
      } else {
        selected := selected + [m];
      }
      if old(Valid()) {
        ToggleKeepsValid(old(selected), m);
      }
    }

    /** The start of `getQuote`: enter loading, clear the quote, and give the
        mood string the request carries. */
    method BeginQuote() returns (mood: string)
      modifies this
      ensures loading && quote == ""
      ensures !CanGetQuote(loading, selected)
      ensures mood == SelectedStr(selected)
      ensures selected == old(selected) && limitNote == old(limitNote)
    {
      loading := true;
      quote := "";
      mood := if |selected| > 0 then Join(selected, Separator) else NeutralMood;
    }

    /** The end of `getQuote`: show the outcome and leave loading. */
    method FinishQuote(o: FetchOutcome)
      modifies this
      ensures quote == Shown(o) && !loading
      ensures CanGetQuote(loading, selected) <==> |selected| > 0
      ensures selected == old(selected) && limitNote == old(limitNote)
    {
      match o {
        case TransportError =>
          quote := ErrorQuote;
        case Received(ok, body) =>
          if !ok {
            quote := ErrorQuote;
          } else if body.Malformed? {
            quote := ErrorQuote;
          } else {
            quote := body.quote.GetOr("");
            if quote == "" {
              quote := FallbackQuote;
            }
          }
      }
      loading := false;
    }

    /** `getQuote` as a whole, with the request as the function `fetch` from
        the mood string to the outcome. */
    method GetQuote(fetch: string -> FetchOutcome)
      modifies this
      ensures quote == Shown(fetch(SelectedStr(old(selected)))) && quote != ""
      ensures !loading
      ensures selected == old(selected) && limitNote == old(limitNote)
    {
      var mood := BeginQuote();
      FinishQuote(fetch(mood));
    }
  }
}
