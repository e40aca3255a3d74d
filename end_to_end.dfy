/** The web client and the quote server put together: the client sends its
    display string as the `mood` query value, and reads the server's JSON
    reply. Percent-encoding on the client and decoding on the server are
    taken to cancel out. */
module EndToEnd {
  import opened Wrappers
  import opened Text
  import QuoteServer
  import opened MoodQuotesWeb

  /** How a server reply reaches the client: `res.ok` holds for a 2xx
      status, and the body's `quote` field is present only in `{quote}`. */
  function Deliver(res: QuoteServer.Response): (o: FetchOutcome)
    ensures o.Received? && o.body.Json?
    ensures o.ok <==> 200 <= res.status < 300
    ensures o.body.quote.Some? <==> res.body.QuoteBody?
    ensures o.body.quote.Some? ==> o.body.quote.value == res.body.quote
  {
    Received(200 <= res.status < 300,
      Json(if res.body.QuoteBody? then Some(res.body.quote) else None))
  }

  /** The request from a selection, answered by the server. When every
      selected mood is a chip label, the service is asked with the prompt
      for the display string itself. */
  function Answer(selected: seq<string>, complete: string -> QuoteServer.Upstream): (res: QuoteServer.Response)
    ensures (forall i :: 0 <= i < |selected| ==> selected[i] in Moods) ==>
      (res.body.QuoteBody? <==> complete(QuoteServer.Prompt(SelectedStr(selected))).Completed?)
  {
    if forall i :: 0 <= i < |selected| ==> selected[i] in Moods then
      ChipMoodsKept(selected);
      QuoteServer.HandleQuote(Some(SelectedStr(selected)), complete)
    else
      QuoteServer.HandleQuote(Some(SelectedStr(selected)), complete)
  }

  /** The client shows exactly the server's quote when the completion call
      succeeds (that quote is never empty, so the client's own fallback is
      never used), and its error text when the call fails. */
  lemma ClientShowsServerQuote(selected: seq<string>, complete: string -> QuoteServer.Upstream)
    ensures var res := Answer(selected, complete);
      Shown(Deliver(res)) ==
        if res.body.QuoteBody? then res.body.quote else ErrorQuote
  {
    var res := Answer(selected, complete);
    assert res.body.QuoteBody? ==> res.body.quote != "";
  }

  /** When every selected mood is a chip label, the server uses the
      client's display string as the mood unchanged. */
  lemma ChipMoodsKept(selected: seq<string>)
    requires forall i :: 0 <= i < |selected| ==> selected[i] in Moods
    ensures SelectedStr(selected) != ""
    ensures QuoteServer.NormaliseMood(Some(SelectedStr(selected))) == SelectedStr(selected)
  {
    MoodsNonEmpty();
    if |selected| > 0 {
      SelectedStrOfSelection(selected);
    }
  }

  /** The one selection the server does rewrite: a single empty mood (which
      only a stored selection can hold) displays as "" and the server
      answers for "neutral" instead. */
  lemma EmptyStoredMoodBecomesNeutral(complete: string -> QuoteServer.Upstream)
    ensures SelectedStr([""]) == ""
    ensures Answer([""], complete) == QuoteServer.HandleQuote(Some(QuoteServer.DefaultMood), complete)
  {
  }

  /** The whole exchange driven from the App state: after `getQuote` against
      the server, the shown quote is the server's quote or the error text. */
  method QuoteFromServer(app: MoodQuotesApp, complete: string -> QuoteServer.Upstream)
    modifies app
    ensures var res := Answer(old(app.selected), complete);
      app.quote == (if res.body.QuoteBody? then res.body.quote else ErrorQuote)
    ensures app.quote != ""
    ensures !app.loading && app.selected == old(app.selected) && app.limitNote == old(app.limitNote)
  {
    ClientShowsServerQuote(app.selected, complete);
    var mood := app.BeginQuote();
    var res := QuoteServer.HandleQuote(Some(mood), complete);
    app.FinishQuote(Deliver(res));
  }
}
