/** The per-domain concept templates: a seed in the code, an overlay file of what people
    caught, and a live copy that a session adds to. */
module ConceptTemplates {
  import opened Prelude

  type Templates = map<string, seq<string>>

  /** What the overlay file holds for one domain: a list, or JSON of another shape. */
  datatype Entry = Concepts(concepts: seq<string>) | OtherJson

  /** The overlay file may be missing, or not be a readable JSON object. */
  datatype File = Absent | Unreadable | Object(entries: map<string, Entry>)

  function At(t: Templates, domain: string): seq<string> {
    if domain in t then t[domain] else []
  }

  predicate Has(t: Templates, domain: string, concept: string) {
    concept in At(t, domain)
  }

  /** A missing or bad file counts as no additions; entries that are no lists are dropped. */
  function LoadOverlay(file: File): Templates {
    if file.Object? then
      map domain | domain in file.entries && file.entries[domain].Concepts? :: file.entries[domain].concepts
    else map[]
  }

  /** extra appended to bucket, each concept at most once. */
  function AppendNew(bucket: seq<string>, extra: seq<string>): seq<string> {
    if extra == [] then bucket
    else
      var before := AppendNew(bucket, extra[..|extra| - 1]);
      var last := extra[|extra| - 1];
      if last in before then before else before + [last]
  }

  /** Seed and overlay in one view, seed order first: what a session starts with. */
  function Merged(seed: Templates, overlay: Templates): Templates {
    map domain | domain in seed.Keys + overlay.Keys :: AppendNew(At(seed, domain), At(overlay, domain))
  }

  lemma {:induction false} AppendNewMembers(bucket: seq<string>, extra: seq<string>, concept: string)
    ensures concept in AppendNew(bucket, extra) <==> concept in bucket || concept in extra
  {
    if extra != [] {
      AppendNewMembers(bucket, extra[..|extra| - 1], concept);
      assert extra == extra[..|extra| - 1] + [extra[|extra| - 1]];
    }
  }

  lemma MergedHas(seed: Templates, overlay: Templates, domain: string, concept: string)
    ensures Has(Merged(seed, overlay), domain, concept) <==> Has(seed, domain, concept) || Has(overlay, domain, concept)
  {
    AppendNewMembers(At(seed, domain), At(overlay, domain), concept);
  }

  /** A session starts with the seed's concepts and those of every list in the file. */
  lemma SessionStarts(seed: Templates, file: File, domain: string, concept: string)
    ensures Has(Merged(seed, LoadOverlay(file)), domain, concept) <==>
              || (domain in seed && concept in seed[domain])
              || (file.Object? && domain in file.entries && file.entries[domain].Concepts?
                  && concept in file.entries[domain].concepts)
  {
    MergedHas(seed, LoadOverlay(file), domain, concept);
  }

  /** x's first place in s comes before y's. */
  ghost predicate FirstEarlier(s: seq<string>, x: string, y: string) {
    exists i :: 0 <= i < |s| && s[i] == x && y !in s[..i + 1]
  }

  lemma FirstEarlierGrows(s: seq<string>, more: seq<string>, x: string, y: string)
    requires s <= more && FirstEarlier(s, x, y)
    ensures FirstEarlier(more, x, y)
  {
    var i :| 0 <= i < |s| && s[i] == x && y !in s[..i + 1];
    assert more[..i + 1] == s[..i + 1] && more[i] == x;
  }

  /** The bucket stays in front, nothing is repeated, and what is new follows in the
      order the additions list it. */
  lemma {:induction false} AppendNewOrder(bucket: seq<string>, extra: seq<string>)
    ensures var all := AppendNew(bucket, extra);
            && bucket <= all && (NoDup(bucket) ==> NoDup(all))
            && forall i, j :: |bucket| <= i < j < |all| ==> FirstEarlier(extra, all[i], all[j])
  {
    if extra != [] {
      var init, last := extra[..|extra| - 1], extra[|extra| - 1];
      var before, all := AppendNew(bucket, init), AppendNew(bucket, extra);
      AppendNewOrder(bucket, init);
      AppendNewMembers(bucket, init, last);
      forall i, j | |bucket| <= i < j < |all| ensures FirstEarlier(extra, all[i], all[j]) {
        if j < |before| {
          FirstEarlierGrows(init, extra, all[i], all[j]);
        } else {
          AddedComesFrom(bucket, init, i);
          var k :| 0 <= k < |init| && init[k] == all[i];
          assert extra[k] == all[i] && extra[..k + 1] == init[..k + 1];
        }
      }
    }
  }

  lemma {:induction false} AddedComesFrom(bucket: seq<string>, extra: seq<string>, i: nat)
    requires |bucket| <= i < |AppendNew(bucket, extra)|
    ensures AppendNew(bucket, extra)[i] in extra
  {
    var init := extra[..|extra| - 1];
    if i < |AppendNew(bucket, init)| {
      AddedComesFrom(bucket, init, i);
    }
  }

  /** In every domain the seed's concepts come first, then those of the file in its order. */
  lemma SeedComesFirst(seed: Templates, overlay: Templates, domain: string)
    ensures var before, more := At(seed, domain), At(overlay, domain);
            var all := At(Merged(seed, overlay), domain);
            && before <= all && (NoDup(before) ==> NoDup(all))
            && forall i, j :: |before| <= i < j < |all| ==> FirstEarlier(more, all[i], all[j])
  {
    AppendNewOrder(At(seed, domain), At(overlay, domain));
  }

  // ---- adding a concept ------------------------------------------------------------------------

  datatype State = State(live: Templates, file: File)

  /** The overlay as it is written back: what the file held, and the new concept. */
  function Extended(overlay: Templates, domain: string, concept: string): Templates {
    overlay[domain := if Has(overlay, domain, concept) then overlay[domain] else At(overlay, domain) + [concept]]
  }

  function AsFile(overlay: Templates): File {
    Object(map domain | domain in overlay :: Concepts(overlay[domain]))
  }

  /** The state after adding a concept, whose write to the file succeeds or fails. */
  function Add(s: State, domain: string, concept: string, saved: bool): State {
    if Has(s.live, domain, concept) then s
    else
      State(s.live[domain := At(s.live, domain) + [concept]],
            if saved then AsFile(Extended(LoadOverlay(s.file), domain, concept)) else s.file)
  }

  class Store {
    var live: Templates
    var file: File

    function Value(): State
      reads this
    {
      State(live, file)
    }

    /** A session starts from the seed and whatever the file holds. */
    constructor (seed: Templates, file: File)
      ensures Value() == State(Merged(seed, LoadOverlay(file)), file)
    {
      this.live := Merged(seed, LoadOverlay(file));
      this.file := file;
    }

    method AddConceptToTemplate(domain: string, concept: string, saved: bool) returns (added: bool)
      modifies this
      ensures Value() == Add(old(Value()), domain, concept, saved)
      ensures added <==> !Has(old(live), domain, concept)
      ensures Has(live, domain, concept)
    {
      var bucket := if domain in live then live[domain] else [];
      if concept in bucket {
        return false;
      }
      live := live[domain := bucket + [concept]];
      var overlay := LoadOverlay(file);
      if domain !in overlay {
        overlay := overlay[domain := []];
      }
      if concept !in overlay[domain] {
        overlay := overlay[domain := overlay[domain] + [concept]];
      }
      assert overlay == Extended(LoadOverlay(file), domain, concept);
      if saved {
        file := AsFile(overlay);
      }
      return true;
    }
  }

  // ---- what survives a restart --------------------------------------------------------------------

  lemma LoadAsFile(overlay: Templates)
    ensures LoadOverlay(AsFile(overlay)) == overlay
  {
  }

  lemma AppendNewSnoc(bucket: seq<string>, extra: seq<string>, concept: string)
    requires concept !in AppendNew(bucket, extra)
    ensures AppendNew(bucket, extra + [concept]) == AppendNew(bucket, extra) + [concept]
  {
    assert (extra + [concept])[..|extra|] == extra;
  }

  lemma MergedAt(seed: Templates, overlay: Templates, domain: string)
    ensures domain in Merged(seed, overlay) <==> domain in seed || domain in overlay
    ensures At(Merged(seed, overlay), domain) == AppendNew(At(seed, domain), At(overlay, domain))
  {
  }

  lemma OneMoreAt(seed: Templates, overlay: Templates, domain: string, concept: string, d: string)
    requires !Has(Merged(seed, overlay), domain, concept)
    ensures d in Merged(seed, Extended(overlay, domain, concept)) <==> d in Merged(seed, overlay) || d == domain
    ensures At(Merged(seed, Extended(overlay, domain, concept)), d)
            == At(Merged(seed, overlay), d) + if d == domain then [concept] else []
  {
    MergedAt(seed, overlay, d);
    MergedAt(seed, Extended(overlay, domain, concept), d);
    if d == domain {
      MergedHas(seed, overlay, domain, concept);
      AppendNewSnoc(At(seed, domain), At(overlay, domain), concept);
    }
  }

  lemma SameTemplates(a: Templates, b: Templates)
    requires forall d :: d in a <==> d in b
    requires forall d :: At(a, d) == At(b, d)
    ensures a == b
  {
    forall d | d in a ensures a[d] == b[d] {
      assert At(a, d) == At(b, d);
    }
  }

  /** A concept the merged view lacks joins it at the end of its domain, and nowhere else. */
  lemma MergedWithOneMore(seed: Templates, overlay: Templates, domain: string, concept: string)
    requires !Has(Merged(seed, overlay), domain, concept)
    ensures var view := Merged(seed, overlay);
            Merged(seed, Extended(overlay, domain, concept)) == view[domain := At(view, domain) + [concept]]
  {
    var view := Merged(seed, overlay);
    var after, wanted := Merged(seed, Extended(overlay, domain, concept)), view[domain := At(view, domain) + [concept]];
    forall d ensures (d in after <==> d in wanted) && At(after, d) == At(wanted, d) {
      OneMoreAt(seed, overlay, domain, concept, d);
    }
    SameTemplates(after, wanted);
  }

  /** With every write succeeding, the live templates stay what a restart would load:
      same domains, same concepts, same order. */
  lemma SavedAddStaysInStep(seed: Templates, s: State, domain: string, concept: string)
    requires s.live == Merged(seed, LoadOverlay(s.file))
    ensures var after := Add(s, domain, concept, true);
            after.live == Merged(seed, LoadOverlay(after.file))
  {
    if !Has(s.live, domain, concept) {
      MergedWithOneMore(seed, LoadOverlay(s.file), domain, concept);
      LoadAsFile(Extended(LoadOverlay(s.file), domain, concept));
    }
  }

  /** One catch: which concept, and whether writing the file worked. */
  datatype Catch = Catch(domain: string, concept: string, saved: bool)

  function Session(s: State, catches: seq<Catch>): State {
    if catches == [] then s
    else
      var last := catches[|catches| - 1];
      Add(Session(s, catches[..|catches| - 1]), last.domain, last.concept, last.saved)
  }

  predicate CaughtAt(catches: seq<Catch>, k: int, domain: string, concept: string) {
    0 <= k < |catches| && catches[k].domain == domain && catches[k].concept == concept
  }

  ghost predicate Caught(catches: seq<Catch>, domain: string, concept: string) {
    exists k :: CaughtAt(catches, k, domain, concept)
  }

  /** The first catch of this concept in the session reached the file. */
  ghost predicate FirstCatchSaved(catches: seq<Catch>, domain: string, concept: string) {
    exists k :: CaughtAt(catches, k, domain, concept) && catches[k].saved
                && forall j :: 0 <= j < k ==> !CaughtAt(catches, j, domain, concept)
  }

  lemma {:induction false} LiveKnowsWhatWasCaught(s: State, catches: seq<Catch>, domain: string, concept: string)
    ensures Has(Session(s, catches).live, domain, concept)
            <==> Has(s.live, domain, concept) || Caught(catches, domain, concept)
  {
    if catches != [] {
      var init := catches[..|catches| - 1];
      LiveKnowsWhatWasCaught(s, init, domain, concept);
      CaughtSnoc(catches, domain, concept);
    }
  }

  lemma CaughtSnoc(catches: seq<Catch>, domain: string, concept: string)
    requires catches != []
    ensures Caught(catches, domain, concept)
            <==> Caught(catches[..|catches| - 1], domain, concept) || CaughtAt(catches, |catches| - 1, domain, concept)
  {
    var init := catches[..|catches| - 1];
    if k :| CaughtAt(init, k, domain, concept) {
      assert CaughtAt(catches, k, domain, concept);
    }
    if k :| CaughtAt(catches, k, domain, concept) {
      assert k < |init| ==> CaughtAt(init, k, domain, concept);
    }
  }

  /** Earlier catches decide; the last one matters only when it is the first of its concept. */
  lemma FirstCatchSnoc(catches: seq<Catch>, domain: string, concept: string)
    requires catches != []
    ensures var init, last := catches[..|catches| - 1], catches[|catches| - 1];
            FirstCatchSaved(catches, domain, concept)
            <==> FirstCatchSaved(init, domain, concept)
                 || (!Caught(init, domain, concept) && last.saved && last.domain == domain && last.concept == concept)
  {
    var init, n := catches[..|catches| - 1], |catches| - 1;
    assert forall k :: k < n ==> (CaughtAt(catches, k, domain, concept) <==> CaughtAt(init, k, domain, concept));
    if FirstCatchSaved(catches, domain, concept) {
      var k :| CaughtAt(catches, k, domain, concept) && catches[k].saved
               && forall j :: 0 <= j < k ==> !CaughtAt(catches, j, domain, concept);
      assert k < n ==> CaughtAt(init, k, domain, concept);
    }
    if FirstCatchSaved(init, domain, concept) {
      var k :| CaughtAt(init, k, domain, concept) && init[k].saved
               && forall j :: 0 <= j < k ==> !CaughtAt(init, j, domain, concept);
      assert CaughtAt(catches, k, domain, concept);
    }
    if !Caught(init, domain, concept) && CaughtAt(catches, n, domain, concept) && catches[n].saved {
      assert forall j :: 0 <= j < n ==> !CaughtAt(catches, j, domain, concept);
    }
  }

  lemma ExtendedHas(overlay: Templates, domain: string, concept: string, d: string, c: string)
    ensures Has(Extended(overlay, domain, concept), d, c) <==> Has(overlay, d, c) || (d == domain && c == concept)
  {
  }

  /** A saved add puts its concept, if the live copy lacked it, where a restart finds it. */
  lemma RestartAfterAdd(seed: Templates, s: State, entry: Catch, domain: string, concept: string)
    ensures var after := Add(s, entry.domain, entry.concept, entry.saved);
            Has(Merged(seed, LoadOverlay(after.file)), domain, concept)
            <==> Has(Merged(seed, LoadOverlay(s.file)), domain, concept)
                 || (entry.saved && !Has(s.live, entry.domain, entry.concept)
                     && entry.domain == domain && entry.concept == concept)
  {
    var overlay := LoadOverlay(s.file);
    var after := LoadOverlay(Add(s, entry.domain, entry.concept, entry.saved).file);
    LoadAsFile(Extended(overlay, entry.domain, entry.concept));
    assert after == if entry.saved && !Has(s.live, entry.domain, entry.concept)
                    then Extended(overlay, entry.domain, entry.concept) else overlay;
    ExtendedHas(overlay, entry.domain, entry.concept, domain, concept);
    MergedHas(seed, overlay, domain, concept);
    MergedHas(seed, after, domain, concept);
  }

  /** What a restart knows after a session: what it would have known before, and exactly
      those concepts whose first catch was saved. A failed first write is never made up
      for in that session: the live copy already has the concept, so a second catch
      writes nothing. */
  lemma {:induction false} RestartKnowsSavedCatches(seed: Templates, s: State, catches: seq<Catch>, domain: string,
                                                    concept: string)
    requires s.live == Merged(seed, LoadOverlay(s.file))
    ensures var after := Merged(seed, LoadOverlay(Session(s, catches).file));
            Has(after, domain, concept) <==> Has(s.live, domain, concept) || FirstCatchSaved(catches, domain, concept)
  {
    if catches != [] {
      var init, last := catches[..|catches| - 1], catches[|catches| - 1];
      var before := Session(s, init);
      RestartKnowsSavedCatches(seed, s, init, domain, concept);
      LiveKnowsWhatWasCaught(s, init, last.domain, last.concept);
      FirstCatchSnoc(catches, domain, concept);
      RestartAfterAdd(seed, before, last, domain, concept);
    }
  }

  /** No catch is lost when every write succeeds. */
  lemma {:induction false} SavedSessionStaysInStep(seed: Templates, s: State, catches: seq<Catch>)
    requires s.live == Merged(seed, LoadOverlay(s.file))
    requires forall k :: 0 <= k < |catches| ==> catches[k].saved
    ensures Session(s, catches).live == Merged(seed, LoadOverlay(Session(s, catches).file))
  {
    if catches != [] {
      var init, last := catches[..|catches| - 1], catches[|catches| - 1];
      SavedSessionStaysInStep(seed, s, init);
      SavedAddStaysInStep(seed, Session(s, init), last.domain, last.concept);
    }
  }
}
