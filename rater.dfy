/** The rating harness of rater.mjs: it runs a number of episodes against the API
    server, each one picking a target, creating an episode, asking for a hint,
    having a second model guess the word unless the hint leaked, and reporting the
    reward. The guessing model's reply and every input the server takes from its
    environment are given per iteration as a `Draw`. */
module Rater {
  import opened Wrappers
  import opened JsText
  import ApiHelpers
  import opened Api

  /** The episode count used when no command-line argument is given. */
  const DefaultEpisodes: nat := 10

  /** `norm`: the case and diacritic folding of the server's `strip`, then `trim`. */
  function Norm(s: string): (r: string)
    ensures r == [] || (!IsSpace(r[0]) && !IsSpace(r[|r| - 1]))
    ensures ApiHelpers.Folded(r)
  {
    var f := ApiHelpers.Strip(s);
    var r := Trim(f);
    assert forall i :: 0 <= i < |r| ==> r[i] == f[LeadingSpace(f) + i];
    r
  }

  /** Normalising twice is normalising once. */
  lemma NormIdempotent(s: string)
    ensures Norm(Norm(s)) == Norm(s)
  {
    var r := Norm(s);
    ApiHelpers.StripFixed(r);
    TrimFixed(r);
  }

  predicate IsQuote(c: char) {
    c == '"' || c == '\'' || c == '`'
  }

  predicate NoQuote(s: string) {
    forall i :: 0 <= i < |s| ==> !IsQuote(s[i])
  }

  /** `s.replace(/["'`]/g, '')`. */
  function DropQuotes(s: string): (r: string)
    ensures |r| <= |s| && NoQuote(r)
  {
    if s == [] then []
    else (if IsQuote(s[0]) then [] else [s[0]]) + DropQuotes(s[1..])
  }

  lemma {:induction false} DropQuotesConcat(a: string, b: string)
    ensures DropQuotes(a + b) == DropQuotes(a) + DropQuotes(b)
  {
    if a == [] {
      assert a + b == b;
    } else {
      var head := if IsQuote(a[0]) then [] else [a[0]];
      assert (a + b)[0] == a[0] && (a + b)[1..] == a[1..] + b;
      assert DropQuotes(a + b) == head + DropQuotes(a[1..] + b);
      DropQuotesConcat(a[1..], b);
      assert DropQuotes(a) == head + DropQuotes(a[1..]);
    }
  }

  lemma {:induction false} DropQuotesFixed(s: string)
    requires NoQuote(s)
    ensures DropQuotes(s) == s
  {
    if s != [] {
      DropQuotesFixed(s[1..]);
    }
  }

  lemma {:induction false} StripNoQuote(s: string)
    requires NoQuote(s)
    ensures NoQuote(ApiHelpers.Strip(s))
  {
    if s != [] {
      StripNoQuote(s[1..]);
    }
  }

  /** The guess `guessWithGPT` returns for the message content of the chat reply
      (`None` when the reply has no content): the reply trimmed, its quote characters
      dropped, its first whitespace-delimited piece, normalised. It is a folded string
      with no quote character and no whitespace. */
  function GuessFromReply(content: Option<string>): (g: string)
    ensures NoSpace(g) && NoQuote(g) && ApiHelpers.Folded(g)
  {
    var raw := if content.Some? then Trim(content.value) else [];
    var first := SplitWs(DropQuotes(raw))[0];
    assert NoQuote(first) by {
      var d := DropQuotes(raw);
      assert forall i :: 0 <= i < |first| ==> first[i] == d[i];
    }
    ApiHelpers.StripNoSpace(first);
    StripNoQuote(first);
    var g := Norm(first);
    var f := ApiHelpers.Strip(first);
    assert forall i :: 0 <= i < |g| ==> g[i] == f[LeadingSpace(f) + i];
    g
  }

  /** `FirstSpace` of a whitespace-free word followed by nothing or by whitespace is the word's length. */
  lemma {:induction false} FirstSpaceAfterWord(w: string, u: string)
    requires NoSpace(w) && (u == [] || IsSpace(u[0]))
    ensures FirstSpace(w + u) == |w|
  {
    if w == [] {
      assert w + u == u;
    } else {
      assert (w + u)[0] == w[0] && (w + u)[1..] == w[1..] + u;
      FirstSpaceAfterWord(w[1..], u);
    }
  }

  /** Trimming a text that starts with a whitespace-free piece followed by nothing or by
      whitespace keeps the piece and leaves whitespace, if anything, right after it. */
  lemma {:induction false} TrimAfterWord(w: string, u: string)
    requires w != [] && NoSpace(w) && (u == [] || IsSpace(u[0]))
    ensures var x := w + u; var t := Trim(x);
      |w| <= |t| && t == w + x[|w|..|t|] && (|t| == |w| || IsSpace(t[|w|]))
  {
    var x := w + u;
    var t := Trim(x);
    assert LeadingSpace(x) == 0 by {
      assert x[0] == w[0];
    }
    var hi := |t|;
    assert t == x[..hi];
    forall i | hi <= i < |x| ensures IsSpace(x[i]) {
      assert x[i] == x[hi..][i - hi];
    }
    assert x[|w| - 1] == w[|w| - 1];
    assert hi >= |w|;
    assert t == w + x[|w|..hi];
  }

  /** A single character loses exactly its quote. */
  lemma DropQuotesChar(c: char)
    ensures DropQuotes([c]) == if IsQuote(c) then [] else [c]
  {
    assert [c][1..] == [];
  }

  /** Dropping quotes never brings whitespace into a string without any. */
  lemma {:induction false} DropQuotesNoSpace(s: string)
    requires NoSpace(s)
    ensures NoSpace(DropQuotes(s))
  {
    if s != [] {
      DropQuotesNoSpace(s[1..]);
    }
  }

  /** A string that starts with whitespace still does after its quotes are dropped. */
  lemma DropQuotesKeepsLeadingSpace(s: string)
    requires s == [] || IsSpace(s[0])
    ensures DropQuotes(s) == [] || IsSpace(DropQuotes(s)[0])
  {
    if s != [] {
      assert s == [s[0]] + s[1..];
      DropQuotesConcat([s[0]], s[1..]);
      DropQuotesChar(s[0]);
    }
  }

  /** Only the first whitespace-delimited piece of the reply counts: surrounded by any
      leading whitespace and followed by nothing or by whitespace and anything, the
      piece `w` yields `w` without its quotes, normalised. */
  lemma GuessIsFirstPiece(ws: string, w: string, u: string)
    requires AllSpace(ws) && w != [] && NoSpace(w) && (u == [] || IsSpace(u[0]))
    ensures GuessFromReply(Some(ws + w + u)) == Norm(DropQuotes(w))
  {
    assert ws + w + u == ws + (w + u) + [];
    TrimSurrounding(ws, w + u, []);
    TrimAfterWord(w, u);
    var t := Trim(w + u);
    var tail := (w + u)[|w|..|t|];
    DropQuotesConcat(w, tail);
    DropQuotesNoSpace(w);
    DropQuotesKeepsLeadingSpace(tail);
    FirstSpaceAfterWord(DropQuotes(w), DropQuotes(tail));
    assert (DropQuotes(w) + DropQuotes(tail))[..|DropQuotes(w)|] == DropQuotes(w);
  }

  /** A word between two quote characters loses just the quotes. */
  lemma DropQuotesAround(q: char, w: string, q': char)
    requires IsQuote(q) && IsQuote(q') && NoQuote(w)
    ensures DropQuotes([q] + w + [q']) == w
  {
    DropQuotesConcat([q] + w, [q']);
    DropQuotesConcat([q], w);
    DropQuotesChar(q);
    DropQuotesChar(q');
    DropQuotesFixed(w);
  }

  /** A quoted first word is read as the word itself, normalised: the model's
      `"Cat"` counts as `cat`. */
  lemma QuotedGuess(ws: string, q: char, w: string, q': char, u: string)
    requires AllSpace(ws) && IsQuote(q) && IsQuote(q') && NoSpace(w) && NoQuote(w)
    requires u == [] || IsSpace(u[0])
    ensures GuessFromReply(Some(ws + ([q] + w + [q']) + u)) == Norm(w)
  {
    var quoted := [q] + w + [q'];
    assert NoSpace(quoted) by {
      assert forall i :: 0 < i < |quoted| - 1 ==> quoted[i] == w[i - 1];
    }
    GuessIsFirstPiece(ws, quoted, u);
    DropQuotesAround(q, w, q');
  }

  /** A reply with no content, or content of whitespace only (the path of a failed
      chat request, whose body has no message), yields the empty guess. */
  lemma EmptyGuess(s: string)
    requires AllSpace(s)
    ensures GuessFromReply(None) == [] && GuessFromReply(Some(s)) == []
  {
    TrimSurrounding(s, [], []);
    assert s + [] + [] == s;
    TrimFixed([]);
  }

  /** `norm` does not depend on ASCII letter case. */
  lemma NormIgnoresCase(s: string, t: string)
    requires SameUpToCase(s, t)
    ensures Norm(s) == Norm(t)
  {
    ApiHelpers.StripIgnoresCase(s, t);
  }

  /** `norm` removes a combining mark wherever it stands. */
  lemma NormIgnoresMark(a: string, m: char, b: string)
    requires IsMark(m)
    ensures Norm(a + [m] + b) == Norm(a + b)
  {
    ApiHelpers.StripDropsMark(a, m, b);
  }

  /** `norm` does not depend on surrounding whitespace. */
  lemma NormIgnoresSurroundingSpace(ws: string, s: string, ws': string)
    requires AllSpace(ws) && AllSpace(ws')
    ensures Norm(ws + s + ws') == Norm(s)
  {
    ApiHelpers.StripConcat(ws + s, ws');
    ApiHelpers.StripConcat(ws, s);
    ApiHelpers.StripKeepsSpace(ws);
    ApiHelpers.StripKeepsSpace(ws');
    TrimSurrounding(ws, ApiHelpers.Strip(s), ws');
  }

  /** A folded string without edge whitespace is its own normal form. */
  lemma NormFixed(s: string)
    requires ApiHelpers.Folded(s) && (s == [] || (!IsSpace(s[0]) && !IsSpace(s[|s| - 1])))
    ensures Norm(s) == s
  {
    ApiHelpers.StripFixed(s);
    TrimFixed(s);
  }

  /** The `ALLOWED` set: the normalised target and aliases of a wordpack entry
      (`item.aliases || []`). */
  function Allowed(item: WordEntry): set<string> {
    set a | a in [item.target] + AliasesOf(item) :: Norm(a)
  }

  /** `ALLOWED.has(norm(guess))`. */
  predicate Solved(guess: string, item: WordEntry) {
    Norm(guess) in Allowed(item)
  }

  /** A guess solves the episode exactly when it normalises to the target or to some alias. */
  lemma SolvedIff(guess: string, item: WordEntry)
    ensures Solved(guess, item) <==>
      Norm(guess) == Norm(item.target) || exists a :: a in AliasesOf(item) && Norm(guess) == Norm(a)
  {
    if Norm(guess) == Norm(item.target) {
      assert item.target in [item.target] + AliasesOf(item);
    }
    if exists a :: a in AliasesOf(item) && Norm(guess) == Norm(a) {
      var a :| a in AliasesOf(item) && Norm(guess) == Norm(a);
      assert a in [item.target] + AliasesOf(item);
    }
  }

  /** The number of iterations of `for (let i = 1; i <= EPISODES; i++)`, where
      `EPISODES` is the command-line argument as a number, or 10 without one. */
  function Iterations(arg: Option<real>): nat {
    match arg
    case None => DefaultEpisodes
    case Some(x) => if x < 1.0 then 0 else x.Floor
  }

  /** The loop body runs for exactly the counters 1, 2, ... that do not exceed `EPISODES`. */
  lemma IterationsMatchLoop(arg: Option<real>, i: int)
    requires 1 <= i
    ensures i <= Iterations(arg) <==> i as real <= arg.GetOr(DefaultEpisodes as real)
  {
  }

  /** What the environment supplies to one iteration: the random number of
      `next-target`, the chat service's answer to `hint`, the guessing model's message
      content, and the store's answers to the three writes (`None` for success). */
  datatype Draw = Draw(
    pick: real,
    hintReply: Result<string, string>,
    guessReply: Option<string>,
    insertEpisodeError: Option<string>,
    updateHintError: Option<string>,
    insertFeedbackError: Option<string>)

  /** One call of an iteration with the part of its answer the harness uses;
      `None` is a failed request. */
  datatype Call =
    | AskTarget(answer: Option<Pick>)
    | PostEpisode(wordId: string, target: string, created: Option<nat>)
    | PostHint(episodeId: nat, target: string, hint: Option<HintReply>)
    | AskGuess(hintText: string, reply: string)
    | PostReward(episodeId: nat, target: string, solved: bool, guess: Option<string>)

  /** The calls of one iteration, in order: next-target, then episode, then hint, then —
      after a leak — auto-reward with `solved = false` and no guess, or otherwise a
      guess and auto-reward with it. A failed call ends the iteration; which calls fail,
      and every answer but the new episode's id, follow from the draw. */
  predicate FollowsScript(calls: seq<Call>, catalogue: seq<WordEntry>, d: Draw) {
    && 0.0 <= d.pick < 1.0
    && |calls| >= 1
    && calls[0] == AskTarget(if |catalogue| == 0 then None else Some(PickAt(catalogue, d.pick)))
    && (calls[0].answer.None? ==> |calls| == 1)
    && (calls[0].answer.Some? ==> AfterTarget(calls[1..], catalogue, calls[0].answer.value, d))
  }

  /** The calls after next-target answered `p`: none if `p` is not a wordpack id,
      otherwise those of `AfterItem`. */
  predicate AfterTarget(calls: seq<Call>, catalogue: seq<WordEntry>, p: Pick, d: Draw) {
    match ById(catalogue, p.wordId)
    case None => calls == []
    case Some(item) => AfterItem(calls, item, p, d)
  }

  /** The calls after next-target answered `p`, the id of the wordpack entry `item`:
      episode, which fails for an empty id or target or a failed insert, and what
      follows it. */
  predicate AfterItem(calls: seq<Call>, item: WordEntry, p: Pick, d: Draw) {
    && |calls| >= 1
    && calls[0].PostEpisode?
    && calls[0].wordId == p.wordId && calls[0].target == p.target
    && (calls[0].created.None? <==> p.wordId == [] || p.target == [] || d.insertEpisodeError.Some?)
    && (calls[0].created.None? ==> |calls| == 1)
    && (calls[0].created.Some? ==> AfterEpisode(calls[1..], item, p.target, calls[0].created.value, d))
  }

  /** The calls after episode `e` was created for `item`: hint, which fails when the chat
      service or the update fails and otherwise answers with the hint for the reply. */
  predicate AfterEpisode(calls: seq<Call>, item: WordEntry, target: string, e: nat, d: Draw) {
    && |calls| >= 1
    && calls[0] == PostHint(e, target,
         if d.hintReply.Err? || d.updateHintError.Some? then None
         else Some(HintFor(d.hintReply.value, target, AliasesOf(item))))
    && (calls[0].hint.None? ==> |calls| == 1)
    && (calls[0].hint.Some? ==> AfterHint(calls[1..], item, target, e, calls[0].hint.value, d))
  }

  /** The calls after the hint `t` was stored for episode `e`. */
  predicate AfterHint(calls: seq<Call>, item: WordEntry, target: string, e: nat, t: HintReply, d: Draw) {
    if t.leak then calls == [PostReward(e, target, false, None)]
    else
      var g := GuessFromReply(d.guessReply);
      calls == [AskGuess(t.hintText, g), PostReward(e, target, Solved(g, item), Some(g))]
  }

  /** A feedback row before the store gives it an id. */
  datatype Row = Row(episodeId: nat, reward: real, tag: Tag, guess: Option<string>)

  /** The rows `rows` stored with consecutive ids from `first` on. */
  function Stamp(rows: seq<Row>, first: nat): (fbs: seq<Feedback>)
    ensures |fbs| == |rows|
    ensures forall i :: 0 <= i < |rows| ==>
      fbs[i] == Feedback(first + i, rows[i].episodeId, rows[i].reward, rows[i].tag, rows[i].guess)
  {
    if rows == [] then []
    else [Feedback(first, rows[0].episodeId, rows[0].reward, rows[0].tag, rows[0].guess)] + Stamp(rows[1..], first + 1)
  }

  lemma StampAppend(a: seq<Row>, b: seq<Row>, first: nat)
    ensures Stamp(a + b, first) == Stamp(a, first) + Stamp(b, first + |a|)
  {
  }

  /** The feedback row auto-reward stores for episode `e` with the hint `t`: none for an
      empty hint or a refused insert, otherwise the score of the hint's leak verdict and
      token count with `solved`, and the guess. */
  function RowFor(t: HintReply, e: nat, solved: bool, guess: Option<string>, ln: real -> real, d: Draw): (rows: seq<Row>)
    requires ApiHelpers.LogShape(ln)
    ensures |rows| <= 1
  {
    if t.hintText != [] && d.insertFeedbackError.None? then
      var s := ScoreOf(t.leak, solved, t.tokens, ln);
      [Row(e, s.reward, s.tag, guess)]
    else []
  }

  /** The feedback row left by the calls `rest` that follow the stored hint `t`: the
      row of their final auto-reward, if they end with one. */
  function RewardRows(t: HintReply, rest: seq<Call>, ln: real -> real, d: Draw): (rows: seq<Row>)
    requires ApiHelpers.LogShape(ln)
    ensures |rows| <= 1
  {
    if |rest| >= 1 && rest[|rest| - 1].PostReward? then
      var last := rest[|rest| - 1];
      RowFor(t, last.episodeId, last.solved, last.guess, ln, d)
    else []
  }

  /** The feedback rows left by the calls from the hint request on. */
  function HintRows(calls: seq<Call>, ln: real -> real, d: Draw): (rows: seq<Row>)
    requires ApiHelpers.LogShape(ln)
    ensures |rows| <= 1
  {
    if |calls| >= 1 && calls[0].PostHint? && calls[0].hint.Some? then RewardRows(calls[0].hint.value, calls[1..], ln, d)
    else []
  }

  /** The feedback rows one iteration leaves. */
  function Reported(calls: seq<Call>, ln: real -> real, d: Draw): (rows: seq<Row>)
    requires ApiHelpers.LogShape(ln)
    ensures |rows| <= 1
  {
    if |calls| >= 3 then HintRows(calls[2..], ln, d) else []
  }

  /** The feedback rows the iterations of `trace` leave, in order. */
  function AllReported(trace: seq<seq<Call>>, draws: seq<Draw>, ln: real -> real): (rows: seq<Row>)
    requires ApiHelpers.LogShape(ln) && |trace| <= |draws|
    ensures |rows| <= |trace|
  {
    if trace == [] then []
    else AllReported(trace[..|trace| - 1], draws, ln) + Reported(trace[|trace| - 1], ln, draws[|trace| - 1])
  }

  /** What the calls from the episode request on say about the `episodes` table: a
      created episode is there with the word id and target it was created for, a
      stored hint is in its hint columns, and after a failed hint request those
      columns are still empty, so the episode can be given a hint again. */
  predicate EpisodeEffects(calls: seq<Call>, episodes: map<nat, Episode>) {
    |calls| >= 1 && calls[0].PostEpisode? && calls[0].created.Some? ==>
      var e := calls[0].created.value;
      && e in episodes
      && episodes[e].wordId == calls[0].wordId && episodes[e].target == calls[0].target
      && (|calls| >= 2 && calls[1].PostHint? ==> HintColumns(episodes[e], calls[1].hint))
  }

  /** The hint columns of `ep` hold the hint `hint`, or are empty when there is none. */
  predicate HintColumns(ep: Episode, hint: Option<HintReply>) {
    match hint
    case Some(t) => ep.hintText == Some(t.hintText) && ep.leaked == Some(t.leak) && ep.tokens == Some(t.tokens)
    case None => ep.hintText.None? && ep.leaked.None? && ep.tokens.None?
  }

  /** An iteration whose hint request failed leaves its episode without a hint, so a
      later `hint` request for it is not refused with 409. */
  lemma FailedHintStaysOpen(calls: seq<Call>, episodes: map<nat, Episode>)
    requires Effects(calls, episodes)
    requires |calls| >= 3 && calls[1].PostEpisode? && calls[1].created.Some?
    requires calls[2].PostHint? && calls[2].hint.None?
    ensures calls[1].created.value in episodes && !HasHint(episodes[calls[1].created.value])
  {
    assert calls[1..][1] == calls[2];
  }

  /** What one iteration's calls say about the `episodes` table. */
  predicate Effects(calls: seq<Call>, episodes: map<nat, Episode>) {
    |calls| >= 1 ==> EpisodeEffects(calls[1..], episodes)
  }

  /** `after` keeps every row of `before` as it was. */
  predicate Keeps(before: map<nat, Episode>, after: map<nat, Episode>) {
    forall id :: id in before ==> id in after && after[id] == before[id]
  }

  /** The id of the episode created by the calls from the episode request on, if any. */
  function CreatedBy(calls: seq<Call>): (ids: set<nat>)
    ensures |ids| <= 1
    ensures ids != {} <==> |calls| >= 1 && calls[0].PostEpisode? && calls[0].created.Some?
  {
    if |calls| >= 1 && calls[0].PostEpisode? && calls[0].created.Some? then {calls[0].created.value} else {}
  }

  /** What the calls from the episode request on did to the `episodes` table `before`
      and the next episode id `n0`, giving `after` and `n1`: the effects of the calls
      are there, every old row is kept, the only new row is the one created, which was
      fresh, and the id counter moved past it. */
  predicate TableAfter(calls: seq<Call>, before: map<nat, Episode>, after: map<nat, Episode>, n0: nat, n1: nat) {
    && EpisodeEffects(calls, after) && Keeps(before, after)
    && CreatedBy(calls) !! before.Keys
    && after.Keys == before.Keys + CreatedBy(calls)
    && (CreatedBy(calls) == {} ==> after == before)
    && n1 == n0 + |CreatedBy(calls)|
  }

  /** The id of the episode one iteration created, if any. */
  function Created(calls: seq<Call>): (ids: set<nat>)
    ensures |ids| <= 1
  {
    if |calls| >= 1 then CreatedBy(calls[1..]) else {}
  }

  /** The ids of the episodes the iterations of `trace` created. */
  function AllCreated(trace: seq<seq<Call>>): (ids: set<nat>)
    ensures |ids| <= |trace|
  {
    if trace == [] then {} else AllCreated(trace[..|trace| - 1]) + Created(trace[|trace| - 1])
  }

  /** The `episodes` table after an episode request that created row `e` as `ep` in
      `before`, giving `mid`, and a hint request answered by `rest[0]`, giving `after`. */
  lemma CreatedEffects(calls: seq<Call>, rest: seq<Call>, before: map<nat, Episode>, e: nat, ep: Episode,
                       mid: map<nat, Episode>, after: map<nat, Episode>)
    requires e !in before && mid == before[e := ep]
    requires ep.hintText.None? && ep.leaked.None? && ep.tokens.None?
    requires calls == [PostEpisode(ep.wordId, ep.target, Some(e))] + rest
    requires |rest| >= 1 && rest[0].PostHint?
    requires after == if rest[0].hint.None? then mid else
      var t := rest[0].hint.value;
      mid[e := mid[e].(hintText := Some(t.hintText), leaked := Some(t.leak), tokens := Some(t.tokens))]
    ensures EpisodeEffects(calls, after) && Keeps(before, after)
    ensures CreatedBy(calls) == {e} && after.Keys == before.Keys + {e}
  {
    assert calls[1..] == rest;
    forall id | id in before ensures id in after && after[id] == before[id] {
      assert id != e;
    }
  }

  /** Every iteration of `trace` followed the script for its draw and its effects are
      in `episodes`. */
  predicate AllFollow(trace: seq<seq<Call>>, catalogue: seq<WordEntry>, draws: seq<Draw>, episodes: map<nat, Episode>)
    requires |trace| <= |draws|
  {
    forall k :: 0 <= k < |trace| ==> FollowsScript(trace[k], catalogue, draws[k]) && Effects(trace[k], episodes)
  }

  /** Later iterations do not undo what the earlier ones did to `episodes`. */
  lemma TraceStep(trace: seq<seq<Call>>, calls: seq<Call>, catalogue: seq<WordEntry>, draws: seq<Draw>,
                  before: map<nat, Episode>, after: map<nat, Episode>)
    requires |trace| < |draws| && AllFollow(trace, catalogue, draws, before) && Keeps(before, after)
    requires FollowsScript(calls, catalogue, draws[|trace|]) && Effects(calls, after)
    ensures AllFollow(trace + [calls], catalogue, draws, after)
  {
    var t := trace + [calls];
    forall k | 0 <= k < |t| ensures FollowsScript(t[k], catalogue, draws[k]) && Effects(t[k], after) {
      if k < |trace| {
        assert t[k] == trace[k];
      }
    }
  }

  lemma KeepsTrans(a: map<nat, Episode>, b: map<nat, Episode>, c: map<nat, Episode>)
    requires Keeps(a, b) && Keeps(b, c)
    ensures Keeps(a, c)
  {
  }

  /** One more iteration appends its reported rows, stamped with the next ids. */
  lemma RunStep(trace: seq<seq<Call>>, calls: seq<Call>, draws: seq<Draw>, ln: real -> real,
                fb0: seq<Feedback>, n0: nat, fb: seq<Feedback>, n: nat, fb': seq<Feedback>, n': nat)
    requires ApiHelpers.LogShape(ln) && |trace| < |draws|
    requires fb == fb0 + Stamp(AllReported(trace, draws, ln), n0)
    requires n == n0 + |AllReported(trace, draws, ln)|
    requires fb' == fb + Stamp(Reported(calls, ln, draws[|trace|]), n)
    requires n' == n + |Reported(calls, ln, draws[|trace|])|
    ensures fb' == fb0 + Stamp(AllReported(trace + [calls], draws, ln), n0)
    ensures n' == n0 + |AllReported(trace + [calls], draws, ln)|
  {
    var t := trace + [calls];
    assert t[..|t| - 1] == trace && t[|t| - 1] == calls;
    StampAppend(AllReported(trace, draws, ln), Reported(calls, ln, draws[|trace|]), n0);
  }

  /** An iteration whose hint leaked reports the `leak` row with reward -1 and no guess,
      unless the store refuses it; a leaking hint is never empty. */
  lemma LeakedHintReports(calls: seq<Call>, catalogue: seq<WordEntry>, d: Draw, ln: real -> real)
    requires ApiHelpers.LogShape(ln) && FollowsScript(calls, catalogue, d)
    requires |calls| >= 3 && calls[2].PostHint? && calls[2].hint.Some? && calls[2].hint.value.leak
    ensures Reported(calls, ln, d) ==
      if d.insertFeedbackError.None? then [Row(calls[2].episodeId, -1.0, Leak, None)] else []
  {
    var t := calls[2].hint.value;
    ApiHelpers.LeaksNeedsText(t.hintText, calls[2].target, AliasesOf(ById(catalogue, calls[1].wordId).value));
    assert calls[2..][|calls[2..]| - 1] == calls[|calls| - 1];
  }

  /** An iteration whose hint did not leak reports the guess it made and the score for
      whether the guess solved the word, unless the hint is empty or the store refuses
      the row. */
  lemma GuessedHintReports(calls: seq<Call>, catalogue: seq<WordEntry>, d: Draw, ln: real -> real)
    requires ApiHelpers.LogShape(ln) && FollowsScript(calls, catalogue, d)
    requires |calls| >= 3 && calls[2].PostHint? && calls[2].hint.Some? && !calls[2].hint.value.leak
    ensures var t := calls[2].hint.value;
      var item := ById(catalogue, calls[1].wordId).value;
      var g := GuessFromReply(d.guessReply);
      var s := ScoreOf(false, Solved(g, item), t.tokens, ln);
      Reported(calls, ln, d) ==
        if t.hintText != [] && d.insertFeedbackError.None? then [Row(calls[2].episodeId, s.reward, s.tag, Some(g))]
        else []
  {
    assert calls[2..][|calls[2..]| - 1] == calls[|calls| - 1];
  }

  /** The body of the main loop; a failed request ends the iteration (the error is logged).
      It appends the rows it reports to `feedback` and keeps every existing episode. */
  method RunEpisode(api: Server, d: Draw) returns (calls: seq<Call>)
    requires api.Valid() && 0.0 <= d.pick < 1.0
    modifies api
    ensures api.Valid()
    ensures FollowsScript(calls, api.catalogue, d)
    ensures Effects(calls, api.episodes) && Keeps(old(api.episodes), api.episodes)
    ensures Created(calls) !! old(api.episodes).Keys
    ensures api.episodes.Keys == old(api.episodes).Keys + Created(calls)
    ensures api.nextEpisodeId == old(api.nextEpisodeId) + |Created(calls)|
    ensures api.feedback == old(api.feedback) + Stamp(Reported(calls, api.ln, d), old(api.nextFeedbackId))
    ensures api.nextFeedbackId == old(api.nextFeedbackId) + |Reported(calls, api.ln, d)|
  {
    var picked := api.NextTarget(d.pick);
    if picked.Err? {
      return [AskTarget(None)];
    }
    var p := picked.value;
    var rest := FromTarget(api, p, d);
    calls := [AskTarget(Some(p))] + rest;
    assert calls[1..] == rest;
    assert |calls| >= 3 ==> calls[2..] == rest[1..];
  }

  /** An iteration from the `item` lookup on: episode, then what follows it. */
  method FromTarget(api: Server, p: Pick, d: Draw) returns (calls: seq<Call>)
    requires api.Valid()
    modifies api
    ensures api.Valid()
    ensures AfterTarget(calls, api.catalogue, p, d)
    ensures TableAfter(calls, old(api.episodes), api.episodes, old(api.nextEpisodeId), api.nextEpisodeId)
    ensures api.feedback == old(api.feedback) +
      Stamp(if |calls| >= 2 then HintRows(calls[1..], api.ln, d) else [], old(api.nextFeedbackId))
    ensures api.nextFeedbackId == old(api.nextFeedbackId) +
      |if |calls| >= 2 then HintRows(calls[1..], api.ln, d) else []|
  {
    var item := ById(api.catalogue, p.wordId);
    if item.None? {
      return [];
    }
    calls := FromItem(api, p, item.value, d);
  }

  /** An iteration from the episode request for the pick `p` of `item` on. */
  method FromItem(api: Server, p: Pick, item: WordEntry, d: Draw) returns (calls: seq<Call>)
    requires api.Valid() && ById(api.catalogue, p.wordId) == Some(item)
    modifies api
    ensures api.Valid()
    ensures AfterItem(calls, item, p, d)
    ensures TableAfter(calls, old(api.episodes), api.episodes, old(api.nextEpisodeId), api.nextEpisodeId)
    ensures api.feedback == old(api.feedback) +
      Stamp(if |calls| >= 2 then HintRows(calls[1..], api.ln, d) else [], old(api.nextFeedbackId))
    ensures api.nextFeedbackId == old(api.nextFeedbackId) +
      |if |calls| >= 2 then HintRows(calls[1..], api.ln, d) else []|
  {
    var created := AskEpisode(api, p, item, d);
    if created.None? {
      return [PostEpisode(p.wordId, p.target, None)];
    }
    var e := created.value;
    ghost var mid, fb, n := api.episodes, api.feedback, api.nextFeedbackId;
    var rest := FromEpisode(api, item, p.target, e, d);
    calls := [PostEpisode(p.wordId, p.target, Some(e))] + rest;
    CreatedOutcome(calls, rest, p, item, e, d, api.ln, old(api.episodes), mid, api.episodes,
                   old(api.nextEpisodeId), api.nextEpisodeId, fb, api.feedback, n, api.nextFeedbackId);
  }

  /** The outcome of an iteration whose episode request created row `e` for the pick
      `p` of `item`, turning `before` into `mid`, and whose calls from the hint request
      on were `rest`, turning `mid` into `after` and appending to `feedback`. */
  lemma CreatedOutcome(calls: seq<Call>, rest: seq<Call>, p: Pick, item: WordEntry,
                       e: nat, d: Draw, ln: real -> real,
                       before: map<nat, Episode>, mid: map<nat, Episode>, after: map<nat, Episode>,
                       n0: nat, n1: nat, fb0: seq<Feedback>, fb1: seq<Feedback>, nf0: nat, nf1: nat)
    requires ApiHelpers.LogShape(ln)
    requires !(p.wordId == [] || p.target == [] || d.insertEpisodeError.Some?)
    requires e !in before && mid == before[e := Episode(p.wordId, p.target, AliasesOf(item), None, None, None, Baseline)]
    requires n1 == n0 + 1
    requires AfterEpisode(rest, item, p.target, e, d)
    requires after == if rest[0].hint.None? then mid else
      var t := rest[0].hint.value;
      mid[e := mid[e].(hintText := Some(t.hintText), leaked := Some(t.leak), tokens := Some(t.tokens))]
    requires fb1 == fb0 + Stamp(HintRows(rest, ln, d), nf0) && nf1 == nf0 + |HintRows(rest, ln, d)|
    requires calls == [PostEpisode(p.wordId, p.target, Some(e))] + rest
    ensures AfterItem(calls, item, p, d)
    ensures TableAfter(calls, before, after, n0, n1)
    ensures fb1 == fb0 + Stamp(if |calls| >= 2 then HintRows(calls[1..], ln, d) else [], nf0)
    ensures nf1 == nf0 + |if |calls| >= 2 then HintRows(calls[1..], ln, d) else []|
  {
    CreatedEffects(calls, rest, before, e, mid[e], mid, after);
    assert calls[1..] == rest;
  }

  /** The episode request for the pick `p` of the wordpack entry `item`: it fails for an
      empty id or target or a refused insert, and otherwise stores a fresh row for the
      pick under the next id. */
  method AskEpisode(api: Server, p: Pick, item: WordEntry, d: Draw) returns (created: Option<nat>)
    requires api.Valid() && ById(api.catalogue, p.wordId) == Some(item)
    modifies api
    ensures api.Valid()
    ensures created.None? <==> p.wordId == [] || p.target == [] || d.insertEpisodeError.Some?
    ensures created.None? ==> api.episodes == old(api.episodes) && api.nextEpisodeId == old(api.nextEpisodeId)
    ensures created.Some? ==>
      && created.value == old(api.nextEpisodeId) && created.value != 0 && created.value !in old(api.episodes)
      && api.episodes == old(api.episodes)[created.value :=
           Episode(p.wordId, p.target, AliasesOf(item), None, None, None, Baseline)]
      && api.nextEpisodeId == old(api.nextEpisodeId) + 1
    ensures api.feedback == old(api.feedback) && api.nextFeedbackId == old(api.nextFeedbackId)
  {
    var r := api.CreateEpisode(Some(p.wordId), Some(p.target), d.insertEpisodeError);
    created := if r.Ok? then Some(r.value) else None;
  }

  /** An iteration from the hint request on: hint, then reward with or without a guess.
      Only episode `e`'s hint columns change. */
  method FromEpisode(api: Server, item: WordEntry, target: string, e: nat, d: Draw) returns (calls: seq<Call>)
    requires api.Valid()
    requires e != 0 && target != [] && e in api.episodes && !HasHint(api.episodes[e])
    requires api.episodes[e].aliases == AliasesOf(item)
    modifies api
    ensures api.Valid()
    ensures AfterEpisode(calls, item, target, e, d)
    ensures api.nextEpisodeId == old(api.nextEpisodeId)
    ensures api.episodes == if calls[0].hint.None? then old(api.episodes) else
      var t := calls[0].hint.value;
      old(api.episodes)[e := old(api.episodes)[e].(
        hintText := Some(t.hintText), leaked := Some(t.leak), tokens := Some(t.tokens))]
    ensures api.feedback == old(api.feedback) + Stamp(HintRows(calls, api.ln, d), old(api.nextFeedbackId))
    ensures api.nextFeedbackId == old(api.nextFeedbackId) + |HintRows(calls, api.ln, d)|
  {
    var hint := AskHint(api, item, target, e, d);
    var rest := [];
    if hint.Some? {
      rest := Report(api, item, target, e, hint.value, d);
    }
    calls := [PostHint(e, target, hint)] + rest;
    EpisodeCalls(calls, hint, rest, item, target, e, d, api.ln);
  }

  /** The calls from the hint request on, given the hint answer and the calls after it. */
  lemma EpisodeCalls(calls: seq<Call>, hint: Option<HintReply>, rest: seq<Call>, item: WordEntry,
                     target: string, e: nat, d: Draw, ln: real -> real)
    requires ApiHelpers.LogShape(ln)
    requires hint == if d.hintReply.Err? || d.updateHintError.Some? then None
      else Some(HintFor(d.hintReply.value, target, AliasesOf(item)))
    requires calls == [PostHint(e, target, hint)] + rest
    requires hint.None? ==> rest == []
    requires hint.Some? ==> AfterHint(rest, item, target, e, hint.value, d)
    ensures AfterEpisode(calls, item, target, e, d)
    ensures calls[0].hint == hint
    ensures HintRows(calls, ln, d) == if hint.None? then [] else RewardRows(hint.value, rest, ln, d)
  {
    assert calls[1..] == rest;
  }

  /** The hint request for episode `e`: it fails when the chat service or the update
      fails, and otherwise stores and answers the hint for the chat reply. */
  method AskHint(api: Server, item: WordEntry, target: string, e: nat, d: Draw) returns (hint: Option<HintReply>)
    requires api.Valid()
    requires e != 0 && target != [] && e in api.episodes && !HasHint(api.episodes[e])
    requires api.episodes[e].aliases == AliasesOf(item)
    modifies api
    ensures api.Valid()
    ensures hint == if d.hintReply.Err? || d.updateHintError.Some? then None
      else Some(HintFor(d.hintReply.value, target, AliasesOf(item)))
    ensures api.episodes == if hint.None? then old(api.episodes) else
      old(api.episodes)[e := old(api.episodes)[e].(
        hintText := Some(hint.value.hintText), leaked := Some(hint.value.leak), tokens := Some(hint.value.tokens))]
    ensures hint.Some? ==> HintStored(api.episodes, e, target, hint.value)
    ensures api.feedback == old(api.feedback) && api.nextFeedbackId == old(api.nextFeedbackId)
    ensures api.nextEpisodeId == old(api.nextEpisodeId)
  {
    var r := api.Hint(Some(e), Some(target), d.hintReply, d.updateHintError);
    hint := if r.Ok? then Some(r.value) else None;
  }

  /** Episode `e` exists, holds the hint `t` in its hint columns, and `t` is the hint
      `hint` answered for `target`. */
  predicate HintStored(episodes: map<nat, Episode>, e: nat, target: string, t: HintReply) {
    && e != 0 && target != [] && e in episodes
    && episodes[e].hintText == Some(t.hintText) && episodes[e].leaked == Some(t.leak)
    && t.tokens == ApiHelpers.TokCount(t.hintText)
    && t.leak == ApiHelpers.Leaks(t.hintText, target, episodes[e].aliases)
  }

  /** The end of an iteration whose hint `t` is stored on episode `e`: after a leak,
      auto-reward with `solved = false` and no guess; otherwise the guess, then
      auto-reward with it. Nothing but `feedback` changes. */
  method Report(api: Server, item: WordEntry, target: string, e: nat, t: HintReply, d: Draw)
    returns (rest: seq<Call>)
    requires api.Valid() && HintStored(api.episodes, e, target, t)
    modifies api
    ensures api.Valid()
    ensures AfterHint(rest, item, target, e, t, d)
    ensures api.episodes == old(api.episodes) && api.nextEpisodeId == old(api.nextEpisodeId)
    ensures api.feedback == old(api.feedback) + Stamp(RewardRows(t, rest, api.ln, d), old(api.nextFeedbackId))
    ensures api.nextFeedbackId == old(api.nextFeedbackId) + |RewardRows(t, rest, api.ln, d)|
  {
    var solved := false;
    var guess := None;
    if t.leak {
      rest := [PostReward(e, target, false, None)];
    } else {
      var g := GuessFromReply(d.guessReply);
      solved := Solved(g, item);
      guess := Some(g);
      rest := [AskGuess(t.hintText, g), PostReward(e, target, solved, guess)];
    }
    ReportCalls(rest, t, item, target, e, solved, guess, d, api.ln);
    Reward(api, e, target, t, solved, guess, d);
  }

  /** The calls after the hint `t`, given the `solved` and `guess` sent to auto-reward. */
  lemma ReportCalls(rest: seq<Call>, t: HintReply, item: WordEntry, target: string, e: nat,
                    solved: bool, guess: Option<string>, d: Draw, ln: real -> real)
    requires ApiHelpers.LogShape(ln)
    requires t.leak ==> !solved && guess == None && rest == [PostReward(e, target, false, None)]
    requires !t.leak ==>
      var g := GuessFromReply(d.guessReply);
      solved == Solved(g, item) && guess == Some(g) && rest == [AskGuess(t.hintText, g), PostReward(e, target, solved, guess)]
    ensures AfterHint(rest, item, target, e, t, d)
    ensures RewardRows(t, rest, ln, d) == RowFor(t, e, solved, guess, ln, d)
  {
  }

  /** The auto-reward request with the harness's `solved` and `guess`: it appends the
      row for the stored hint `t`, if any, and changes nothing else. */
  method Reward(api: Server, e: nat, target: string, t: HintReply, solved: bool, guess: Option<string>, d: Draw)
    requires api.Valid() && HintStored(api.episodes, e, target, t)
    modifies api
    ensures api.Valid()
    ensures api.episodes == old(api.episodes) && api.nextEpisodeId == old(api.nextEpisodeId)
    ensures api.feedback == old(api.feedback) + Stamp(RowFor(t, e, solved, guess, api.ln, d), old(api.nextFeedbackId))
    ensures api.nextFeedbackId == old(api.nextFeedbackId) + |RowFor(t, e, solved, guess, api.ln, d)|
  {
    var r := api.AutoReward(Some(e), Some(target), solved, guess, d.insertFeedbackError);
    if r.Ok? {
      var s := ScoreOf(t.leak, solved, t.tokens, api.ln);
      assert r.value.didLeak == t.leak && r.value.totalTokens == t.tokens;
      assert Stamp([Row(e, s.reward, s.tag, guess)], old(api.nextFeedbackId))
        == [Feedback(old(api.nextFeedbackId), e, s.reward, s.tag, guess)];
    }
  }

  /** What the main loop has done after the iterations of `trace`, starting from the
      tables `e0` and `fb0` and the feedback id `n0`: each iteration followed the script
      and its effects are in `episodes`, no row of `e0` changed, and `feedback` is `fb0`
      followed by the reported rows, stamped from `n0` on. The only rows added to `e0`
      are the fresh ones the iterations created, and the next episode id `ne0` moved
      past each of them. */
  ghost predicate Progress(trace: seq<seq<Call>>, draws: seq<Draw>, catalogue: seq<WordEntry>, ln: real -> real,
                           e0: map<nat, Episode>, ne0: nat, fb0: seq<Feedback>, n0: nat,
                           episodes: map<nat, Episode>, ne: nat, feedback: seq<Feedback>, n: nat)
  {
    && ApiHelpers.LogShape(ln) && |trace| <= |draws|
    && AllFollow(trace, catalogue, draws, episodes)
    && Keeps(e0, episodes)
    && AllCreated(trace) !! e0.Keys
    && episodes.Keys == e0.Keys + AllCreated(trace)
    && ne == ne0 + |AllCreated(trace)|
    && feedback == fb0 + Stamp(AllReported(trace, draws, ln), n0)
    && n == n0 + |AllReported(trace, draws, ln)|
  }

  /** One more iteration adds the fresh id it created, if any, to the ids `trace`
      created: the table keys `keys` are the old keys `keys0` and those ids, and the next
      episode id `ne` moved from `ne0` past each of them. */
  lemma CreatedStep(trace: seq<seq<Call>>, calls: seq<Call>, keys0: set<nat>, keys: set<nat>, keys': set<nat>,
                    ne0: nat, ne: nat, ne': nat)
    requires AllCreated(trace) !! keys0 && keys == keys0 + AllCreated(trace) && ne == ne0 + |AllCreated(trace)|
    requires Created(calls) !! keys && keys' == keys + Created(calls) && ne' == ne + |Created(calls)|
    ensures AllCreated(trace + [calls]) !! keys0
    ensures keys' == keys0 + AllCreated(trace + [calls])
    ensures ne' == ne0 + |AllCreated(trace + [calls])|
  {
    var t := trace + [calls];
    assert t[..|t| - 1] == trace && t[|t| - 1] == calls;
    assert AllCreated(t) == AllCreated(trace) + Created(calls);
    assert Created(calls) !! AllCreated(trace);
  }

  /** One iteration keeps `Progress`. */
  lemma ProgressStep(trace: seq<seq<Call>>, calls: seq<Call>, draws: seq<Draw>, catalogue: seq<WordEntry>,
                     ln: real -> real, e0: map<nat, Episode>, ne0: nat, fb0: seq<Feedback>, n0: nat,
                     episodes: map<nat, Episode>, ne: nat, feedback: seq<Feedback>, n: nat,
                     episodes': map<nat, Episode>, ne': nat, feedback': seq<Feedback>, n': nat)
    requires Progress(trace, draws, catalogue, ln, e0, ne0, fb0, n0, episodes, ne, feedback, n)
    requires |trace| < |draws|
    requires FollowsScript(calls, catalogue, draws[|trace|])
    requires Effects(calls, episodes') && Keeps(episodes, episodes')
    requires Created(calls) !! episodes.Keys && episodes'.Keys == episodes.Keys + Created(calls)
    requires ne' == ne + |Created(calls)|
    requires feedback' == feedback + Stamp(Reported(calls, ln, draws[|trace|]), n)
    requires n' == n + |Reported(calls, ln, draws[|trace|])|
    ensures Progress(trace + [calls], draws, catalogue, ln, e0, ne0, fb0, n0, episodes', ne', feedback', n')
  {
    TraceStep(trace, calls, catalogue, draws, episodes, episodes');
    KeepsTrans(e0, episodes, episodes');
    CreatedStep(trace, calls, e0.Keys, episodes.Keys, episodes'.Keys, ne0, ne, ne');
    RunStep(trace, calls, draws, ln, fb0, n0, feedback, n, feedback', n');
  }

  /** The main loop: exactly `Iterations(arg)` iterations, each following the script,
      whatever happened in the earlier ones. The feedback table ends with the rows the
      iterations report, in order and with consecutive ids, no existing episode
      changes, and every iteration's episode and hint are in the `episodes` table. */
  method Run(api: Server, arg: Option<real>, draws: seq<Draw>) returns (trace: seq<seq<Call>>)
    requires api.Valid()
    requires |draws| == Iterations(arg)
    requires forall k :: 0 <= k < |draws| ==> 0.0 <= draws[k].pick < 1.0
    modifies api
    ensures api.Valid()
    ensures |trace| == Iterations(arg)
    ensures forall k :: 0 <= k < |trace| ==> FollowsScript(trace[k], api.catalogue, draws[k])
    ensures forall k :: 0 <= k < |trace| ==> Effects(trace[k], api.episodes)
    ensures Keeps(old(api.episodes), api.episodes)
    ensures AllCreated(trace) !! old(api.episodes).Keys
    ensures api.episodes.Keys == old(api.episodes).Keys + AllCreated(trace)
    ensures api.nextEpisodeId == old(api.nextEpisodeId) + |AllCreated(trace)|
    ensures api.feedback == old(api.feedback) + Stamp(AllReported(trace, draws, api.ln), old(api.nextFeedbackId))
    ensures api.nextFeedbackId == old(api.nextFeedbackId) + |AllReported(trace, draws, api.ln)|
  {
    var episodes := Iterations(arg);
    trace := [];
    for i := 1 to episodes + 1
      invariant api.Valid()
      invariant |trace| == i - 1
      invariant Progress(trace, draws, api.catalogue, api.ln, old(api.episodes), old(api.nextEpisodeId),
                         old(api.feedback), old(api.nextFeedbackId),
                         api.episodes, api.nextEpisodeId, api.feedback, api.nextFeedbackId)
    {
      trace := NextIteration(api, trace, draws, old(api.episodes), old(api.nextEpisodeId),
                             old(api.feedback), old(api.nextFeedbackId));
    }
  }

  /** One more iteration of the main loop, with the draw after those of `trace`; it
      keeps `Progress` from the tables `e0`, `fb0` and the ids `ne0`, `n0`. */
  method NextIteration(api: Server, trace: seq<seq<Call>>, draws: seq<Draw>,
                       ghost e0: map<nat, Episode>, ghost ne0: nat, ghost fb0: seq<Feedback>, ghost n0: nat)
    returns (trace': seq<seq<Call>>)
    requires api.Valid() && |trace| < |draws| && 0.0 <= draws[|trace|].pick < 1.0
    requires Progress(trace, draws, api.catalogue, api.ln, e0, ne0, fb0, n0,
                      api.episodes, api.nextEpisodeId, api.feedback, api.nextFeedbackId)
    modifies api
    ensures api.Valid() && |trace'| == |trace| + 1 && trace'[..|trace|] == trace
    ensures Progress(trace', draws, api.catalogue, api.ln, e0, ne0, fb0, n0,
                     api.episodes, api.nextEpisodeId, api.feedback, api.nextFeedbackId)
  {
    ghost var before, ne, fb, n := api.episodes, api.nextEpisodeId, api.feedback, api.nextFeedbackId;
    var calls := RunEpisode(api, draws[|trace|]);
    ProgressStep(trace, calls, draws, api.catalogue, api.ln, e0, ne0, fb0, n0, before, ne, fb, n,
                 api.episodes, api.nextEpisodeId, api.feedback, api.nextFeedbackId);
    trace' := trace + [calls];
  }
}
