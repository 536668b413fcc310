/** The API server of api.mjs: the wordpack, the two store tables `episodes` and
    `feedback`, the reward formula and the four endpoints `next-target`, `episode`,
    `hint` and `auto-reward`. The store is an in-memory map and sequence; the
    language-model reply, the random number and the store's own write failures
    are parameters of the endpoints. */
module Api {
  import opened Wrappers
  import opened JsText
  import opened ApiHelpers

  /** An entry of the wordpack; `aliases` is `None` when the entry has no alias array. */
  datatype WordEntry = WordEntry(id: string, target: string, aliases: Option<seq<string>>)

  /** A row of `episodes`; the hint columns are `None` until a hint is stored. */
  datatype Episode = Episode(
    wordId: string,
    target: string,
    aliases: seq<string>,
    hintText: Option<string>,
    leaked: Option<bool>,
    tokens: Option<nat>,
    modelCkpt: string)

  datatype Tag = Leak | AutoLen | AutoLenSolve {
    /** The text stored in the `tag` column. */
    function Label(): string {
      match this
      case Leak => "leak"
      case AutoLen => "auto_len"
      case AutoLenSolve => "auto_len+solve"
    }
  }

  /** A row of `feedback`. */
  datatype Feedback = Feedback(id: nat, episodeId: nat, reward: real, tag: Tag, guess: Option<string>)

  /** An error response: its HTTP status and its `error` message. */
  datatype Failure = BadRequest(message: string) | Conflict(message: string) | ServerError(message: string) {
    function Status(): int {
      match this
      case BadRequest(_) => 400
      case Conflict(_) => 409
      case ServerError(_) => 500
    }
  }

  /** The bodies of the successful responses. */
  datatype Pick = Pick(target: string, wordId: string)
  datatype HintReply = HintReply(hintText: string, tokens: nat, leak: bool)
  datatype RewardReply = RewardReply(
    feedbackId: nat, reward: real, tag: Tag, totalTokens: nat, didLeak: bool, guess: Option<string>)

  const Baseline := "base"
  const CreateFieldsRequired := "word_id, target required"
  const UnknownWord := "word_id not in wordpack"
  const EpisodeFieldsRequired := "episode_id, target required"
  const HintExists := "hint already exists"
  const NoHint := "no hint for this episode"
  /** Stands for the store's message when a select by id finds no row. */
  const NoSuchRow := "no episode with this id"
  /** Stands for the framework's message when `next-target` reads past an empty wordpack. */
  const EmptyWordpack := "wordpack is empty"

  /** `String(e.message || e)` for a thrown `Error` with message `m`: an empty message
      gives the error's own text, its name "Error". */
  function ErrorText(m: string): (t: string)
    ensures t != []
    ensures m != [] ==> t == m
    ensures m == [] ==> t == "Error"
  {
    if m == [] then "Error" else m
  }

  /** JavaScript truthiness of an optional string field: present and not empty. */
  predicate Present(s: Option<string>) {
    s.Some? && s.value != []
  }

  /** Truthiness of an optional id: present and not 0. */
  predicate PresentId(id: Option<nat>) {
    id.Some? && id.value != 0
  }

  /** The episode has a truthy `hint_text`. */
  predicate HasHint(ep: Episode) {
    Present(ep.hintText)
  }

  /** `byId[id]` for `byId = Object.fromEntries(WORDPACK.map(x => [x.id, x]))`: when two
      entries share an id, the later one wins. */
  function ById(catalogue: seq<WordEntry>, id: string): (r: Option<WordEntry>)
    ensures r.None? <==> forall e :: e in catalogue ==> e.id != id
    ensures r.Some? ==> r.value.id == id
    ensures r.Some? ==> exists k :: (0 <= k < |catalogue| && catalogue[k] == r.value
      && forall j :: k < j < |catalogue| ==> catalogue[j].id != id)
  {
    if catalogue == [] then None
    else
      var last := catalogue[|catalogue| - 1];
      if last.id == id then Some(last)
      else
        var r := ById(catalogue[..|catalogue| - 1], id);
        assert forall e :: e in catalogue ==> e in catalogue[..|catalogue| - 1] || e == last;
        r
  }

  /** `Array.isArray(item.aliases) ? item.aliases : []`. */
  function AliasesOf(e: WordEntry): seq<string> {
    e.aliases.GetOr([])
  }

  /** `Math.floor(u * n)` for a random `u` in [0, 1). */
  function PickIndex(u: real, n: nat): (k: nat)
    requires 0.0 <= u < 1.0 && 0 < n
    ensures k < n
    ensures k as real <= u * n as real < k as real + 1.0
  {
    var x := u * n as real;
    MulNonNegative(u, n as real);
    MulBelow(u, n as real);
    var k := x.Floor;
    assert k as real <= x < n as real;
    k
  }

  /** The wordpack entry `next-target` answers with for the random number `u`. */
  function PickAt(catalogue: seq<WordEntry>, u: real): (p: Pick)
    requires 0.0 <= u < 1.0 && 0 < |catalogue|
    ensures exists k :: 0 <= k < |catalogue| && p == Pick(catalogue[k].target, catalogue[k].id)
    ensures ById(catalogue, p.wordId).Some?
  {
    var k := PickIndex(u, |catalogue|);
    ByIdFindsMember(catalogue, k);
    Pick(catalogue[k].target, catalogue[k].id)
  }

  /** Every entry of the wordpack can be picked. */
  lemma PickReachesEvery(k: nat, n: nat)
    requires k < n
    ensures 0.0 <= k as real / n as real < 1.0
    ensures PickIndex(k as real / n as real, n) == k
  {
    assert (k as real / n as real) * n as real == k as real;
  }

  /** Every id in the wordpack resolves to an entry with that id. */
  lemma ByIdFindsMember(catalogue: seq<WordEntry>, k: nat)
    requires k < |catalogue|
    ensures ById(catalogue, catalogue[k].id).Some?
  {
    assert catalogue[k] in catalogue;
  }

  /** A reward and its tag. */
  datatype Score = Score(reward: real, tag: Tag)

  /** The reward formula of `auto-reward`. */
  function ScoreOf(didLeak: bool, solved: bool, tok: nat, ln: real -> real): (s: Score)
    requires LogShape(ln)
    ensures -1.0 <= s.reward <= 1.0
    ensures didLeak ==> s.reward == -1.0
    ensures s.tag == Leak <==> didLeak
    ensures s.tag == AutoLenSolve <==> !didLeak && solved
  {
    if didLeak then Score(-1.0, Leak)
    else
      BrevityRange(ln, tok);
      Score(Clamp(Brevity(ln, tok) + (if solved then 0.2 else -0.2), -1.0, 1.0),
            if solved then AutoLenSolve else AutoLen)
  }

  /** A reward of -1 means exactly that the hint leaked. */
  lemma MinusOneMeansLeak(didLeak: bool, solved: bool, tok: nat, ln: real -> real)
    requires LogShape(ln)
    ensures ScoreOf(didLeak, solved, tok, ln).reward == -1.0 <==> didLeak
  {
    BrevityRange(ln, tok);
  }

  /** Without a leak the reward is brevity plus 0.2 when solved (capped at 1) and
      brevity minus 0.2 when not, which never reaches a bound. */
  lemma RewardWithoutLeak(solved: bool, tok: nat, ln: real -> real)
    requires LogShape(ln)
    ensures 1.0 + Penalty(ln, tok) > 0.0
    ensures var b := Brevity(ln, tok); var r := ScoreOf(false, solved, tok, ln).reward;
      if solved then 0.2 < r <= 1.0 && (b <= 0.8 ==> r == b + 0.2) && (b > 0.8 ==> r == 1.0)
      else -0.2 < r <= 0.8 && r == b - 0.2
  {
    BrevityRange(ln, tok);
  }

  /** A solved hint always scores more than the same hint unsolved. */
  lemma SolvingPays(tok: nat, ln: real -> real)
    requires LogShape(ln)
    ensures ScoreOf(false, true, tok, ln).reward > ScoreOf(false, false, tok, ln).reward
  {
    RewardWithoutLeak(true, tok, ln);
    RewardWithoutLeak(false, tok, ln);
  }

  /** Shorter hints never score less; unsolved ones score strictly more. */
  lemma ShorterScoresHigher(solved: bool, m: nat, n: nat, ln: real -> real)
    requires LogShape(ln) && m < n
    ensures ScoreOf(false, solved, n, ln).reward <= ScoreOf(false, solved, m, ln).reward
    ensures !solved ==> ScoreOf(false, solved, n, ln).reward < ScoreOf(false, solved, m, ln).reward
  {
    BrevityDecreasing(ln, m, n);
    RewardWithoutLeak(solved, m, ln);
    RewardWithoutLeak(solved, n, ln);
  }

  /** `Math.log` itself is not available; a function of the assumed shape exists. */
  lemma LogShapeMeetable()
    ensures LogShape(x => x - 1.0)
  {
  }

  /** An episode is a snapshot of its wordpack entry, made by `episode`, whose hint
      columns are written together by `hint`. */
  ghost predicate EpisodeOk(catalogue: seq<WordEntry>, ep: Episode) {
    && ById(catalogue, ep.wordId).Some?
    && ep.aliases == AliasesOf(ById(catalogue, ep.wordId).value)
    && ep.modelCkpt == Baseline
    && (ep.hintText.Some? <==> ep.leaked.Some?)
    && (ep.hintText.Some? <==> ep.tokens.Some?)
    && (ep.hintText.Some? ==> ep.tokens.value == TokCount(ep.hintText.value))
  }

  /** A feedback row scores an episode that has a hint, with a reward in [-1, 1]
      that is -1 exactly for the `leak` tag. */
  ghost predicate FeedbackOk(episodes: map<nat, Episode>, fb: Feedback) {
    && fb.episodeId in episodes
    && HasHint(episodes[fb.episodeId])
    && -1.0 <= fb.reward <= 1.0
    && (fb.reward == -1.0 <==> fb.tag == Leak)
  }

  /** Every episode has an id below the next one and is well formed. */
  ghost predicate EpisodesOk(catalogue: seq<WordEntry>, episodes: map<nat, Episode>, nextEpisodeId: nat) {
    forall id :: id in episodes ==> 1 <= id < nextEpisodeId && EpisodeOk(catalogue, episodes[id])
  }

  /** Every feedback row is well formed and has an id below the next one; ids increase. */
  ghost predicate FeedbackTableOk(episodes: map<nat, Episode>, feedback: seq<Feedback>, nextFeedbackId: nat) {
    && (forall i :: 0 <= i < |feedback| ==> feedback[i].id < nextFeedbackId && FeedbackOk(episodes, feedback[i]))
    && (forall i, j :: 0 <= i < j < |feedback| ==> feedback[i].id < feedback[j].id)
  }

  /** The invariant of the server's state. */
  ghost predicate StoreOk(catalogue: seq<WordEntry>, ln: real -> real, episodes: map<nat, Episode>,
                          feedback: seq<Feedback>, nextEpisodeId: nat, nextFeedbackId: nat)
  {
    && LogShape(ln)
    && 1 <= nextEpisodeId
    && EpisodesOk(catalogue, episodes, nextEpisodeId)
    && FeedbackTableOk(episodes, feedback, nextFeedbackId)
  }

  lemma InsertKeepsStoreOk(catalogue: seq<WordEntry>, ln: real -> real, episodes: map<nat, Episode>,
                           feedback: seq<Feedback>, nextEpisodeId: nat, nextFeedbackId: nat, ep: Episode)
    requires StoreOk(catalogue, ln, episodes, feedback, nextEpisodeId, nextFeedbackId)
    requires EpisodeOk(catalogue, ep)
    ensures nextEpisodeId !in episodes
    ensures StoreOk(catalogue, ln, episodes[nextEpisodeId := ep], feedback, nextEpisodeId + 1, nextFeedbackId)
  {
    var e' := episodes[nextEpisodeId := ep];
    forall i | 0 <= i < |feedback| ensures FeedbackOk(e', feedback[i]) {
      assert FeedbackOk(episodes, feedback[i]);
    }
  }

  /** Storing a hint on an episode without a truthy hint keeps the invariant: no feedback
      row refers to such an episode. */
  lemma HintKeepsStoreOk(catalogue: seq<WordEntry>, ln: real -> real, episodes: map<nat, Episode>,
                         feedback: seq<Feedback>, nextEpisodeId: nat, nextFeedbackId: nat,
                         id: nat, h: string, leaked: bool)
    requires StoreOk(catalogue, ln, episodes, feedback, nextEpisodeId, nextFeedbackId)
    requires id in episodes && !HasHint(episodes[id])
    ensures StoreOk(catalogue, ln,
      episodes[id := episodes[id].(hintText := Some(h), leaked := Some(leaked), tokens := Some(TokCount(h)))],
      feedback, nextEpisodeId, nextFeedbackId)
  {
    var ep := episodes[id];
    var e' := episodes[id := ep.(hintText := Some(h), leaked := Some(leaked), tokens := Some(TokCount(h)))];
    assert EpisodeOk(catalogue, ep);
    forall i | 0 <= i < |feedback| ensures FeedbackOk(e', feedback[i]) {
      assert FeedbackOk(episodes, feedback[i]);
    }
  }

  lemma AppendKeepsStoreOk(catalogue: seq<WordEntry>, ln: real -> real, episodes: map<nat, Episode>,
                           feedback: seq<Feedback>, nextEpisodeId: nat, nextFeedbackId: nat, fb: Feedback)
    requires StoreOk(catalogue, ln, episodes, feedback, nextEpisodeId, nextFeedbackId)
    requires fb.id == nextFeedbackId && FeedbackOk(episodes, fb)
    ensures StoreOk(catalogue, ln, episodes, feedback + [fb], nextEpisodeId, nextFeedbackId + 1)
  {
    AppendKeepsFeedbackTableOk(episodes, feedback, nextFeedbackId, fb);
  }

  lemma AppendKeepsFeedbackTableOk(episodes: map<nat, Episode>, feedback: seq<Feedback>, nextFeedbackId: nat, fb: Feedback)
    requires FeedbackTableOk(episodes, feedback, nextFeedbackId)
    requires fb.id == nextFeedbackId && FeedbackOk(episodes, fb)
    ensures FeedbackTableOk(episodes, feedback + [fb], nextFeedbackId + 1)
  {
    var f' := feedback + [fb];
    forall i | 0 <= i < |f'| ensures f'[i].id < nextFeedbackId + 1 && FeedbackOk(episodes, f'[i]) {
      if i < |feedback| {
        assert f'[i] == feedback[i];
      }
    }
    forall i, j | 0 <= i < j < |f'| ensures f'[i].id < f'[j].id {
      assert f'[i] == feedback[i];
      if j < |feedback| {
        assert f'[j] == feedback[j];
      }
    }
  }

  /** The hint `hint` stores and answers with for the chat reply `reply`: the reply
      trimmed, its token count, and whether it leaks the target or one of the aliases. */
  function HintFor(reply: string, target: string, aliases: seq<string>): (t: HintReply)
    ensures t.hintText == Trim(reply) && t.tokens == TokCount(t.hintText)
    ensures t.leak <==> Leaks(t.hintText, target, aliases)
  {
    var h := Trim(reply);
    HintReply(h, TokCount(h), Leaks(h, target, aliases))
  }

  /** The computation of the hint in `hint`, with the leak test run as the first-match loop. */
  method MakeHint(reply: string, target: string, aliases: seq<string>) returns (t: HintReply)
    ensures t == HintFor(reply, target, aliases)
  {
    var hintText := Trim(reply);
    var leaked := LeaksScan(hintText, target, aliases);
    return HintReply(hintText, TokCount(hintText), leaked);
  }

  /** The scoring step of `auto-reward` for an episode with a hint: the leak verdict
      (the stored flag, else the leak test), the token count (the stored one, else a
      recount) and the reward with its tag. */
  method Assess(ep: Episode, target: string, solved: bool, ln: real -> real)
    returns (didLeak: bool, tok: nat, score: Score)
    requires ep.hintText.Some? && LogShape(ln)
    ensures didLeak == (ep.leaked == Some(true) || Leaks(ep.hintText.value, target, ep.aliases))
    ensures ep.tokens.None? || ep.tokens == Some(TokCount(ep.hintText.value)) ==>
      tok == TokCount(ep.hintText.value)
    ensures score == ScoreOf(didLeak, solved, tok, ln)
    ensures score.reward == -1.0 <==> didLeak
  {
    var hint := ep.hintText.value;
    if ep.leaked == Some(true) {
      didLeak := true;
    } else {
      didLeak := LeaksScan(hint, target, ep.aliases);
    }
    if ep.tokens.Some? && ep.tokens.value != 0 {
      tok := ep.tokens.value;
    } else {
      tok := TokCount(hint);
    }
    score := ScoreOf(didLeak, solved, tok, ln);
    MinusOneMeansLeak(didLeak, solved, tok, ln);
  }

  /** The API server's state: the wordpack loaded at start-up and the two store tables. */
  class Server {
    const catalogue: seq<WordEntry>
    /** `Math.log`. */
    const ln: real -> real
    var episodes: map<nat, Episode>
    var feedback: seq<Feedback>
    /** The ids the store hands out next; they start at 1, so every stored id is truthy. */
    var nextEpisodeId: nat
    var nextFeedbackId: nat

    ghost predicate Valid()
      reads this
    {
      StoreOk(catalogue, ln, episodes, feedback, nextEpisodeId, nextFeedbackId)
    }

    constructor (catalogue: seq<WordEntry>, ln: real -> real)
      requires LogShape(ln)
      ensures Valid()
      ensures this.catalogue == catalogue && this.ln == ln
      ensures episodes == map[] && feedback == []
    {
      this.catalogue := catalogue;
      this.ln := ln;
      episodes := map[];
      feedback := [];
      nextEpisodeId := 1;
      nextFeedbackId := 1;
    }

    /** The store's insert into `episodes`: the row gets the next id. */
    method InsertEpisode(ep: Episode) returns (id: nat)
      requires Valid() && EpisodeOk(catalogue, ep)
      modifies this
      ensures Valid()
      ensures id == old(nextEpisodeId) && id != 0 && id !in old(episodes)
      ensures episodes == old(episodes)[id := ep] && nextEpisodeId == old(nextEpisodeId) + 1
      ensures feedback == old(feedback) && nextFeedbackId == old(nextFeedbackId)
    {
      id := nextEpisodeId;
      InsertKeepsStoreOk(catalogue, ln, episodes, feedback, nextEpisodeId, nextFeedbackId, ep);
      episodes := episodes[id := ep];
      nextEpisodeId := nextEpisodeId + 1;
    }

    /** The store's update of the hint columns of episode `id`. */
    method WriteHint(id: nat, t: HintReply)
      requires Valid() && id in episodes && !HasHint(episodes[id]) && t.tokens == TokCount(t.hintText)
      modifies this
      ensures Valid()
      ensures episodes == old(episodes)[id := old(episodes)[id].(
        hintText := Some(t.hintText), leaked := Some(t.leak), tokens := Some(t.tokens))]
      ensures feedback == old(feedback)
      ensures nextEpisodeId == old(nextEpisodeId) && nextFeedbackId == old(nextFeedbackId)
    {
      HintKeepsStoreOk(catalogue, ln, episodes, feedback, nextEpisodeId, nextFeedbackId, id, t.hintText, t.leak);
      episodes := episodes[id := episodes[id].(hintText := Some(t.hintText), leaked := Some(t.leak), tokens := Some(t.tokens))];
    }

    /** The store's insert into `feedback`: the row carries the next id. */
    method AppendFeedback(fb: Feedback)
      requires Valid() && fb.id == nextFeedbackId && FeedbackOk(episodes, fb)
      modifies this
      ensures Valid()
      ensures feedback == old(feedback) + [fb] && nextFeedbackId == old(nextFeedbackId) + 1
      ensures episodes == old(episodes) && nextEpisodeId == old(nextEpisodeId)
    {
      AppendKeepsStoreOk(catalogue, ln, episodes, feedback, nextEpisodeId, nextFeedbackId, fb);
      feedback := feedback + [fb];
      nextFeedbackId := nextFeedbackId + 1;
    }

    /** GET /api/next-target: the entry at `Math.floor(u * WORDPACK.length)`, for the random `u`. */
    method NextTarget(u: real) returns (r: Result<Pick, Failure>)
      requires 0.0 <= u < 1.0
      ensures r.Ok? <==> |catalogue| > 0
      ensures r.Err? ==> r.error.ServerError?
      ensures r.Ok? ==> r.value == PickAt(catalogue, u)
    {
      if |catalogue| == 0 {
        return Err(ServerError(EmptyWordpack));
      }
      var k := PickIndex(u, |catalogue|);
      var item := catalogue[k];
      return Ok(Pick(item.target, item.id));
    }

    /** POST /api/episode: insert a snapshot row for a known word id. */
    method CreateEpisode(wordId: Option<string>, target: Option<string>, insertError: Option<string>)
      returns (r: Result<nat, Failure>)
      requires Valid()
      modifies this
      ensures Valid()
      ensures feedback == old(feedback) && nextFeedbackId == old(nextFeedbackId)
      ensures !Present(wordId) || !Present(target) ==> r == Err(BadRequest(CreateFieldsRequired))
      ensures Present(wordId) && Present(target) && ById(catalogue, wordId.value).None? ==>
        r == Err(BadRequest(UnknownWord))
      ensures Present(wordId) && Present(target) && ById(catalogue, wordId.value).Some? && insertError.Some? ==>
        r == Err(BadRequest(insertError.value))
      ensures r.Err? ==> episodes == old(episodes) && nextEpisodeId == old(nextEpisodeId)
      ensures r.Ok? <==> Present(wordId) && Present(target) && ById(catalogue, wordId.value).Some? && insertError.None?
      ensures r.Ok? ==>
        && r.value != 0 && r.value !in old(episodes)
        && r.value == old(nextEpisodeId) && nextEpisodeId == old(nextEpisodeId) + 1
        && episodes == old(episodes)[r.value := Episode(wordId.value, target.value,
             AliasesOf(ById(catalogue, wordId.value).value), None, None, None, Baseline)]
    {
      if !Present(wordId) || !Present(target) {
        return Err(BadRequest(CreateFieldsRequired));
      }
      var item := ById(catalogue, wordId.value);
      if item.None? {
        return Err(BadRequest(UnknownWord));
      }
      if insertError.Some? {
        return Err(BadRequest(insertError.value));
      }
      var ep := Episode(wordId.value, target.value, AliasesOf(item.value), None, None, None, Baseline);
      var id := InsertEpisode(ep);
      return Ok(id);
    }

    /** POST /api/hint: generate one hint with the caller's target, check it against the
        stored aliases, and store it, unless the episode already has a truthy hint.
        `reply` is the chat service's answer: its message content, or the text of a
        non-success response. */
    method Hint(episodeId: Option<nat>, target: Option<string>, reply: Result<string, string>,
                updateError: Option<string>)
      returns (r: Result<HintReply, Failure>)
      requires Valid()
      modifies this
      ensures Valid()
      ensures feedback == old(feedback)
      ensures nextEpisodeId == old(nextEpisodeId) && nextFeedbackId == old(nextFeedbackId)
      ensures !PresentId(episodeId) || !Present(target) ==> r == Err(BadRequest(EpisodeFieldsRequired))
      ensures PresentId(episodeId) && Present(target) && episodeId.value !in old(episodes) ==>
        r == Err(BadRequest(NoSuchRow))
      ensures PresentId(episodeId) && Present(target) && episodeId.value in old(episodes) ==>
        var ep := old(episodes)[episodeId.value];
        && (HasHint(ep) ==> r == Err(Conflict(HintExists)))
        && (!HasHint(ep) && reply.Err? ==> r == Err(ServerError(ErrorText(reply.error))))
        && (!HasHint(ep) && reply.Ok? && updateError.Some? ==> r == Err(BadRequest(updateError.value)))
      ensures r.Err? ==> episodes == old(episodes)
      ensures r.Ok? <==>
        && PresentId(episodeId) && Present(target) && episodeId.value in old(episodes)
        && !HasHint(old(episodes)[episodeId.value]) && reply.Ok? && updateError.None?
      ensures r.Ok? ==>
        var id := episodeId.value;
        var ep := old(episodes)[id];
        && r.value == HintFor(reply.value, target.value, ep.aliases)
        && episodes == old(episodes)[id := ep.(hintText := Some(r.value.hintText), leaked := Some(r.value.leak),
                                               tokens := Some(r.value.tokens))]
    {
      if !PresentId(episodeId) || !Present(target) {
        return Err(BadRequest(EpisodeFieldsRequired));
      }
      var id := episodeId.value;
      if id !in episodes {
        return Err(BadRequest(NoSuchRow));
      }
      var ep := episodes[id];
      if HasHint(ep) {
        return Err(Conflict(HintExists));
      }
      if reply.Err? {
        return Err(ServerError(ErrorText(reply.error)));
      }
      var t := MakeHint(reply.value, target.value, ep.aliases);
      if updateError.Some? {
        return Err(BadRequest(updateError.value));
      }
      WriteHint(id, t);
      return Ok(t);
    }

    /** POST /api/auto-reward: score an episode that has a hint and append one feedback row. */
    method AutoReward(episodeId: Option<nat>, target: Option<string>, solved: bool, guess: Option<string>,
                      insertError: Option<string>)
      returns (r: Result<RewardReply, Failure>)
      requires Valid()
      modifies this
      ensures Valid()
      ensures episodes == old(episodes) && nextEpisodeId == old(nextEpisodeId)
      ensures !PresentId(episodeId) || !Present(target) ==> r == Err(BadRequest(EpisodeFieldsRequired))
      ensures PresentId(episodeId) && Present(target) && episodeId.value !in episodes ==>
        r == Err(BadRequest(NoSuchRow))
      ensures PresentId(episodeId) && Present(target) && episodeId.value in episodes ==>
        var ep := episodes[episodeId.value];
        && (!HasHint(ep) ==> r == Err(BadRequest(NoHint)))
        && (HasHint(ep) && insertError.Some? ==> r == Err(BadRequest(insertError.value)))
      ensures r.Err? ==> feedback == old(feedback) && nextFeedbackId == old(nextFeedbackId)
      ensures r.Ok? <==>
        && PresentId(episodeId) && Present(target) && episodeId.value in episodes
        && HasHint(episodes[episodeId.value]) && insertError.None?
      ensures r.Ok? ==>
        var ep := episodes[episodeId.value];
        var hint := ep.hintText.value;
        && r.value.didLeak == (ep.leaked == Some(true) || Leaks(hint, target.value, ep.aliases))
        && r.value.totalTokens == TokCount(hint)
        && Score(r.value.reward, r.value.tag) == ScoreOf(r.value.didLeak, solved, r.value.totalTokens, ln)
        && r.value.guess == guess
        && r.value.feedbackId == old(nextFeedbackId)
        && feedback == old(feedback) + [Feedback(r.value.feedbackId, episodeId.value, r.value.reward, r.value.tag, guess)]
        && nextFeedbackId == old(nextFeedbackId) + 1
    {
      if !PresentId(episodeId) || !Present(target) {
        return Err(BadRequest(EpisodeFieldsRequired));
      }
      var id := episodeId.value;
      if id !in episodes {
        return Err(BadRequest(NoSuchRow));
      }
      var ep := episodes[id];
      if !HasHint(ep) {
        return Err(BadRequest(NoHint));
      }
      assert EpisodeOk(catalogue, ep);
      var didLeak, tok, score := Assess(ep, target.value, solved, ln);
      if insertError.Some? {
        return Err(BadRequest(insertError.value));
      }
      var fb := Feedback(nextFeedbackId, id, score.reward, score.tag, guess);
      AppendFeedback(fb);
      return Ok(RewardReply(fb.id, score.reward, score.tag, tok, didLeak, guess));
    }
  }
}
