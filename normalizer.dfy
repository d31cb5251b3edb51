/**
 * `_process_results`: flattening the two-level `utterances`/`words` payload
 * of a successful status reply into one ordered list of word records.
 * A missing key aborts the whole flattening; nothing is skipped.
 */
module Normalizer {
  import opened Wrappers
  import opened Wire

  /** A word that carries all three fields the record needs. */
  predicate Complete(w: Word) {
    w.text.Some? && w.startTime.Some? && w.endTime.Some?
  }

  /** The record a complete word becomes: its three fields, unchanged. */
  function RecordFrom(w: Word): WordRecord
    requires Complete(w)
  {
    WordRecord(w.text.value, w.startTime.value, w.endTime.value)
  }

  /** An utterance that has a `words` list made of complete words. */
  predicate UtteranceComplete(u: Utterance) {
    u.words.Some? && forall j :: 0 <= j < |u.words.value| ==> Complete(u.words.value[j])
  }

  /** Every utterance is complete. */
  predicate WellFormed(us: seq<Utterance>) {
    forall i :: 0 <= i < |us| ==> UtteranceComplete(us[i])
  }

  /** The number of words an utterance holds (none when the key is absent). */
  function WordCount(u: Utterance): nat {
    if u.words.Some? then |u.words.value| else 0
  }

  /** The sum of the per-utterance word counts. */
  function TotalWords(us: seq<Utterance>): nat {
    if us == [] then 0 else TotalWords(us[..|us| - 1]) + WordCount(us[|us| - 1])
  }

  /** Building one record: the dictionary literal reads `text`, `start_time`, `end_time` in that order. */
  function RecordOf(w: Word): (r: Result<WordRecord, AsrError>)
    ensures r.Ok? <==> Complete(w)
    ensures r.Ok? ==> r.value == RecordFrom(w)
    ensures r.Err? ==> r.error == MissingKey(
      if w.text.None? then "text" else if w.startTime.None? then "start_time" else "end_time")
  {
    if w.text.None? then Err(MissingKey("text"))
    else if w.startTime.None? then Err(MissingKey("start_time"))
    else if w.endTime.None? then Err(MissingKey("end_time"))
    else Ok(WordRecord(w.text.value, w.startTime.value, w.endTime.value))
  }

  /** The inner loop: the words of one utterance, in order; the first incomplete word aborts. */
  function FlattenWords(ws: seq<Word>): (r: Result<seq<WordRecord>, AsrError>)
    ensures r.Ok? ==> |r.value| == |ws|
    ensures r.Err? ==> r.error.MissingKey? && r.error.key in {"text", "start_time", "end_time"}
  {
    if ws == [] then Ok([])
    else
      match FlattenWords(ws[..|ws| - 1])
      case Err(e) => Err(e)
      case Ok(done) =>
        match RecordOf(ws[|ws| - 1])
        case Err(e) => Err(e)
        case Ok(rec) => Ok(done + [rec])
  }

  /** Both loops: utterance order, then word order; the first missing key aborts. */
  function Flatten(us: seq<Utterance>): (r: Result<seq<WordRecord>, AsrError>)
    ensures us == [] ==> r == Ok([])
    ensures r.Ok? ==> |r.value| == TotalWords(us)
    ensures r.Err? ==> r.error.MissingKey? && r.error.key in {"words", "text", "start_time", "end_time"}
  {
    if us == [] then Ok([])
    else
      var init := us[..|us| - 1];
      match Flatten(init)
      case Err(e) => Err(e)
      case Ok(done) =>
        match us[|us| - 1].words
        case None => Err(MissingKey("words"))
        case Some(ws) =>
          match FlattenWords(ws)
          case Err(e) => Err(e)
          case Ok(recs) => Ok(done + recs)
  }

  /** `_process_results` on a whole reply: `resp`, then `utterances`, then the flattening. */
  function NormalizedResults(reply: QueryReply): (r: Result<seq<WordRecord>, AsrError>)
    ensures reply.resp.None? ==> r == Err(MissingKey("resp"))
    ensures reply.resp.Some? && reply.resp.value.utterances.None? ==> r == Err(MissingKey("utterances"))
    ensures reply.resp.Some? && reply.resp.value.utterances.Some? ==> r == Flatten(reply.resp.value.utterances.value)
  {
    match reply.resp
    case None => Err(MissingKey("resp"))
    case Some(resp) =>
      match resp.utterances
      case None => Err(MissingKey("utterances"))
      case Some(us) => Flatten(us)
  }

  /** The words flatten without error exactly when every word is complete. */
  lemma {:induction false} FlattenWordsOkIff(ws: seq<Word>)
    ensures FlattenWords(ws).Ok? <==> forall j :: 0 <= j < |ws| ==> Complete(ws[j])
  {
    if ws != [] {
      var init := ws[..|ws| - 1];
      FlattenWordsOkIff(init);
      assert forall j :: 0 <= j < |init| ==> init[j] == ws[j];
    }
  }

  /** A successful flattening of words holds, at each position, the unchanged copy of that word. */
  lemma {:induction false} FlattenWordsAt(ws: seq<Word>, j: nat)
    requires FlattenWords(ws).Ok? && j < |ws|
    ensures Complete(ws[j])
    ensures FlattenWords(ws).value[j] == RecordFrom(ws[j])
  {
    var n := |ws| - 1;
    var init := ws[..n];
    var head := FlattenWords(init).value;
    assert FlattenWords(ws).value == head + [RecordOf(ws[n]).value];
    if j < n {
      assert init[j] == ws[j];
      FlattenWordsAt(init, j);
      assert (head + [RecordOf(ws[n]).value])[j] == head[j];
    }
  }

  /** The utterances flatten without error exactly when they are well formed. */
  lemma {:induction false} FlattenOkIff(us: seq<Utterance>)
    ensures Flatten(us).Ok? <==> WellFormed(us)
  {
    if us != [] {
      var init := us[..|us| - 1];
      FlattenOkIff(init);
      assert forall i :: 0 <= i < |init| ==> init[i] == us[i];
      var last := us[|us| - 1];
      if last.words.Some? {
        FlattenWordsOkIff(last.words.value);
      }
    }
  }

  /** Once a prefix of the words fails, every extension fails with the same error. */
  lemma {:induction false} FlattenWordsErrorPersists(p: seq<Word>, q: seq<Word>, e: AsrError)
    requires FlattenWords(p) == Err(e)
    ensures FlattenWords(p + q) == Err(e)
    decreases |q|
  {
    if q != [] {
      var q' := q[..|q| - 1];
      assert (p + q)[..|p + q| - 1] == p + q';
      FlattenWordsErrorPersists(p, q', e);
    } else {
      assert p + q == p;
    }
  }

  /** Once a prefix of the utterances fails, every extension fails with the same error. */
  lemma {:induction false} FlattenErrorPersists(p: seq<Utterance>, q: seq<Utterance>, e: AsrError)
    requires Flatten(p) == Err(e)
    ensures Flatten(p + q) == Err(e)
    decreases |q|
  {
    if q != [] {
      var q' := q[..|q| - 1];
      assert (p + q)[..|p + q| - 1] == p + q';
      FlattenErrorPersists(p, q', e);
    } else {
      assert p + q == p;
    }
  }

  /** A well-formed list of utterances flattens to the records of all but the last, then the last one's. */
  lemma FlattenSplitsLast(us: seq<Utterance>)
    requires us != [] && WellFormed(us)
    ensures WellFormed(us[..|us| - 1])
    ensures Flatten(us).Ok? && Flatten(us[..|us| - 1]).Ok? && FlattenWords(us[|us| - 1].words.value).Ok?
    ensures Flatten(us).value
            == Flatten(us[..|us| - 1]).value + FlattenWords(us[|us| - 1].words.value).value
  {
    var init := us[..|us| - 1];
    assert forall k :: 0 <= k < |init| ==> init[k] == us[k];
    FlattenOkIff(us);
    FlattenOkIff(init);
  }

  /**
   * Order and field preservation: word j of utterance i lands at position
   * (words of the utterances before i) + j, as the unchanged copy of that word.
   */
  lemma {:induction false} FlattenAt(us: seq<Utterance>, i: nat, j: nat)
    requires WellFormed(us)
    requires i < |us| && j < |us[i].words.value|
    ensures Flatten(us).Ok? && TotalWords(us[..i]) + j < TotalWords(us)
    ensures Flatten(us).value[TotalWords(us[..i]) + j] == RecordFrom(us[i].words.value[j])
  {
    var n := |us| - 1;
    var init := us[..n];
    FlattenSplitsLast(us);
    var head := Flatten(init).value;
    var tail := FlattenWords(us[n].words.value).value;
    if i < n {
      assert init[..i] == us[..i] && init[i] == us[i];
      FlattenAt(init, i, j);
      assert (head + tail)[TotalWords(us[..i]) + j] == head[TotalWords(us[..i]) + j];
    } else {
      assert us[..i] == init;
      FlattenWordsAt(us[n].words.value, j);
      assert (head + tail)[|head| + j] == tail[j];
    }
  }

  /** A failing last word fails the words it ends, when the words before it are complete. */
  lemma LastWordFails(p: seq<Word>, e: AsrError)
    requires p != [] && FlattenWords(p[..|p| - 1]).Ok? && RecordOf(p[|p| - 1]) == Err(e)
    ensures FlattenWords(p) == Err(e)
  {
  }

  /** A failing last utterance fails the utterances it ends, when those before it are complete. */
  lemma LastUtteranceFails(p: seq<Utterance>, e: AsrError)
    requires p != [] && Flatten(p[..|p| - 1]).Ok?
    requires p[|p| - 1].words.None? ==> e == MissingKey("words")
    requires p[|p| - 1].words.Some? ==> FlattenWords(p[|p| - 1].words.value) == Err(e)
    ensures Flatten(p) == Err(e)
  {
  }

  /** Utterance `i` lacking `words`, after complete utterances, aborts the whole flattening. */
  lemma MissingWordsAborts(us: seq<Utterance>, i: nat)
    requires i < |us| && us[i].words.None? && Flatten(us[..i]).Ok?
    ensures Flatten(us) == Err(MissingKey("words"))
  {
    var p := us[..i + 1];
    assert p[..|p| - 1] == us[..i] && p[|p| - 1] == us[i];
    LastUtteranceFails(p, MissingKey("words"));
    assert p + us[i + 1..] == us;
    FlattenErrorPersists(p, us[i + 1..], MissingKey("words"));
  }

  /** Word `j` lacking a field, after complete words, aborts the utterance's flattening. */
  lemma IncompleteWordAborts(ws: seq<Word>, j: nat, e: AsrError)
    requires j < |ws| && FlattenWords(ws[..j]).Ok? && RecordOf(ws[j]) == Err(e)
    ensures FlattenWords(ws) == Err(e)
  {
    var p := ws[..j + 1];
    assert p[..|p| - 1] == ws[..j] && p[|p| - 1] == ws[j];
    LastWordFails(p, e);
    assert p + ws[j + 1..] == ws;
    FlattenWordsErrorPersists(p, ws[j + 1..], e);
  }

  /** Utterance `i` whose words fail, after complete utterances, aborts the whole flattening. */
  lemma FailingUtteranceAborts(us: seq<Utterance>, i: nat, e: AsrError)
    requires i < |us| && us[i].words.Some? && Flatten(us[..i]).Ok?
    requires FlattenWords(us[i].words.value) == Err(e)
    ensures Flatten(us) == Err(e)
  {
    var p := us[..i + 1];
    assert p[..|p| - 1] == us[..i] && p[|p| - 1] == us[i];
    LastUtteranceFails(p, e);
    assert p + us[i + 1..] == us;
    FlattenErrorPersists(p, us[i + 1..], e);
  }

  /** One more complete word extends the flattening of a prefix of the words by its record. */
  lemma WordExtends(ws: seq<Word>, j: nat, done: seq<WordRecord>)
    requires j < |ws| && FlattenWords(ws[..j]) == Ok(done) && RecordOf(ws[j]).Ok?
    ensures FlattenWords(ws[..j + 1]) == Ok(done + [RecordOf(ws[j]).value])
  {
    assert ws[..j + 1][..j] == ws[..j];
  }

  /** One more complete utterance extends the flattening of a prefix of the utterances by its records. */
  lemma UtteranceExtends(us: seq<Utterance>, i: nat, done: seq<WordRecord>, recs: seq<WordRecord>)
    requires i < |us| && us[i].words.Some? && Flatten(us[..i]) == Ok(done)
    requires FlattenWords(us[i].words.value) == Ok(recs)
    ensures Flatten(us[..i + 1]) == Ok(done + recs)
  {
    assert us[..i + 1][..i] == us[..i];
  }

  /**
   * `_process_results` as the source writes it: two nested loops appending
   * to `results`. It computes exactly NormalizedResults.
   */
  method ProcessResults(reply: QueryReply) returns (r: Result<seq<WordRecord>, AsrError>)
    ensures r == NormalizedResults(reply)
  {
    if reply.resp.None? {
      return Err(MissingKey("resp"));
    }
    if reply.resp.value.utterances.None? {
      return Err(MissingKey("utterances"));
    }
    var utterances := reply.resp.value.utterances.value;
    var results: seq<WordRecord> := [];
    for i := 0 to |utterances|
      invariant Flatten(utterances[..i]) == Ok(results)
    {
      var utterance := utterances[i];
      if utterance.words.None? {
        MissingWordsAborts(utterances, i);
        return Err(MissingKey("words"));
      }
      var words := utterance.words.value;
      ghost var before := results;
      ghost var current: seq<WordRecord> := [];
      assert words[..0] == [];
      for j := 0 to |words|
        invariant results == before + current
        invariant FlattenWords(words[..j]) == Ok(current)
      {
        var word := words[j];
        var rec := RecordOf(word);
        if rec.Err? {
          IncompleteWordAborts(words, j, rec.error);
          FailingUtteranceAborts(utterances, i, rec.error);
          return Err(rec.error);
        }
        WordExtends(words, j, current);
        results := results + [rec.value];
        current := current + [rec.value];
      }
      assert words[..|words|] == words;
      UtteranceExtends(utterances, i, before, current);
    }
    assert utterances[..|utterances|] == utterances;
    return Ok(results);
  }

  /** The two-utterance payload below flattens to its two words, in order and unchanged. */
  lemma TwoUtteranceExample()
    ensures Flatten([Utterance(Some([Word(Some("a"), Some(0), Some(100))])),
                     Utterance(Some([Word(Some("b"), Some(100), Some(200))]))])
         == Ok([WordRecord("a", 0, 100), WordRecord("b", 100, 200)])
  {
    var u1 := Utterance(Some([Word(Some("a"), Some(0), Some(100))]));
    var u2 := Utterance(Some([Word(Some("b"), Some(100), Some(200))]));
    var us := [u1, u2];
    assert UtteranceComplete(u1) && UtteranceComplete(u2);
    assert us[..0] == [] && us[..1] == [u1] && [u1][..0] == [];
    assert us[..|us| - 1] == [u1];
    FlattenAt(us, 0, 0);
    FlattenAt(us, 1, 0);
    assert Flatten(us).value == [WordRecord("a", 0, 100), WordRecord("b", 100, 200)];
  }

  /** Removing the `words` key from any utterance makes the flattening fail. */
  lemma MissingWordsFails(us: seq<Utterance>, i: nat)
    requires i < |us| && us[i].words.None?
    ensures Flatten(us).Err?
  {
    assert !UtteranceComplete(us[i]);
    FlattenOkIff(us);
  }
}
