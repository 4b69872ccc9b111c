/**
  The saved decision history of the scorecard: a list of records, newest
  first. Submitting the form computes the verdict and puts a new record at
  the front, unless the decision text is blank or the form was not
  submitted. Reading and writing the history file, the clock and the widgets
  are outside this model: the timestamp and the form's fields are inputs.
 */
module History {
  import Text
  import Scorecard

  /** What the form holds when it is submitted. */
  datatype Form = Form(
    decision: string,
    date: string,
    scores: Scorecard.ScoreCard,
    inactionCost: string,
    fragility: string,
    nextAction: string)

  /** One saved record: the form's fields as entered, the submission time,
      and the total score and verdict label computed from them. */
  datatype Entry = Entry(
    timestamp: string,
    date: string,
    decision: string,
    scores: Scorecard.ScoreCard,
    totalScore: int,
    inactionCost: string,
    fragility: string,
    nextAction: string,
    verdict: string)

  /** One press of the form's button (or a re-run without one): the form's
      contents, whether it was submitted, and the clock reading at the time. */
  datatype Submission = Submission(form: Form, submitted: bool, timestamp: string)

  /** The record a submission saves. */
  function NewEntry(form: Form, timestamp: string): Entry {
    var (verdict, total) := Scorecard.ComputeVerdict(form.scores, form.inactionCost, form.fragility);
    Entry(timestamp, form.date, form.decision, form.scores, total,
          form.inactionCost, form.fragility, form.nextAction, Scorecard.Label(verdict))
  }

  /** A submission is saved when the form was submitted and its decision
      text is not blank. */
  predicate Accepts(s: Submission) {
    s.submitted && Text.Strip(s.form.decision) != []
  }

  /** The submit step: a saved submission puts its record in front of the
      history; otherwise the history is left as it was. The record keeps the
      decision text unstripped, and carries the total and the label of the
      verdict that `compute_verdict` gives for the form's inputs. */
  function Submit(history: seq<Entry>, s: Submission): (r: seq<Entry>)
    ensures !s.submitted || Text.AllIn(s.form.decision, Text.Whitespace) ==> r == history
    ensures s.submitted && !Text.AllIn(s.form.decision, Text.Whitespace) ==>
      && |r| == |history| + 1
      && r[1..] == history
      && r[0].timestamp == s.timestamp
      && r[0].decision == s.form.decision
      && r[0].date == s.form.date
      && r[0].scores == s.form.scores
      && r[0].inactionCost == s.form.inactionCost
      && r[0].fragility == s.form.fragility
      && r[0].nextAction == s.form.nextAction
      && r[0].totalScore == Scorecard.Sum(Scorecard.Values(s.form.scores))
      && r[0].verdict == Scorecard.Label(Scorecard.ComputeVerdict(s.form.scores, s.form.inactionCost, s.form.fragility).0)
  {
    if Accepts(s) then [NewEntry(s.form, s.timestamp)] + history else history
  }

  /** The history after a run of submissions, oldest submission first. */
  function Replay(history: seq<Entry>, subs: seq<Submission>): seq<Entry>
    decreases |subs|
  {
    if subs == [] then history else Replay(Submit(history, subs[0]), subs[1..])
  }

  /** The records a run of submissions saves, in submission order. */
  function Saved(subs: seq<Submission>): seq<Entry> {
    if subs == [] then []
    else if Accepts(subs[0]) then [NewEntry(subs[0].form, subs[0].timestamp)] + Saved(subs[1..])
    else Saved(subs[1..])
  }

  /** The elements of `xs` in the opposite order. */
  function Reverse<T>(xs: seq<T>): seq<T> {
    if xs == [] then [] else Reverse(xs[1..]) + [xs[0]]
  }

  /** The history stays newest first: after any run of submissions, it holds
      the saved records in reverse submission order, followed by the earlier
      history unchanged. */
  lemma {:induction false} ReplayNewestFirst(history: seq<Entry>, subs: seq<Submission>)
    ensures Replay(history, subs) == Reverse(Saved(subs)) + history
    decreases |subs|
  {
    if subs != [] {
      var h := Submit(history, subs[0]);
      ReplayNewestFirst(h, subs[1..]);
      if Accepts(subs[0]) {
        var e := NewEntry(subs[0].form, subs[0].timestamp);
        assert Saved(subs) == [e] + Saved(subs[1..]);
        assert Reverse(Saved(subs)) == Reverse(Saved(subs[1..])) + [e];
        assert Reverse(Saved(subs[1..])) + ([e] + history) == Reverse(Saved(subs[1..])) + [e] + history;
      }
    }
  }
}
