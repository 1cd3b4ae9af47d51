/** Entity resolution: how `find_speaker` / `_find_speaker` and the
    lookup inside `set_source` turn the caller's `id`, `name` or `keywords`
    into one entity of a fetched list. Ids and names compare without regard
    to case; a keyword list matches when every lower-cased keyword is one of
    the entity's keywords; of several matches the last in list order wins,
    because the search loop overwrites its choice on every match. */
module Resolver {
  import opened Base
  import opened Text
  import opened Protocol
  import opened Keywords

  /** The `keywords` argument: a list, or some other Python value, which is
      only an error when it is truthy. */
  datatype KeywordArg = Words(words: seq<string>) | NotAList(truthy: bool)

  predicate KeywordsGiven(k: KeywordArg) {
    match k
    case Words(ws) => ws != []
    case NotAList(t) => t
  }

  /** How many of `id`, `name` and `keywords` are truthy. */
  function Given(id: string, name: string, keywords: KeywordArg): nat
  {
    (if id != [] then 1 else 0) + (if name != [] then 1 else 0) + (if KeywordsGiven(keywords) then 1 else 0)
  }

  /** The checks of `find_speaker` before its search: no selector, more
      than one selector, and a keywords argument that is not a list. */
  function SelectorOf(id: string, name: string, keywords: KeywordArg): (r: Result<Selector>)
    ensures r == Err(NoSelector) <==> Given(id, name, keywords) == 0
    ensures r == Err(TooManySelectors) <==> Given(id, name, keywords) > 1
    ensures r == Err(KeywordsNotList) <==> Given(id, name, keywords) == 1 && keywords.NotAList? && keywords.truthy
    ensures r.Ok? ==> Given(id, name, keywords) == 1
    ensures r.Ok? && id != [] ==> r.value == ById(id)
    ensures r.Ok? && name != [] ==> r.value == ByName(name)
    ensures r.Ok? && KeywordsGiven(keywords) ==> keywords.Words? && r.value == ByKeywords(keywords.words)
  {
    if Given(id, name, keywords) == 0 then Err(NoSelector)
    else if Given(id, name, keywords) > 1 then Err(TooManySelectors)
    else if id != [] then Ok(ById(id))
    else if name != [] then Ok(ByName(name))
    else if keywords.NotAList? then Err(KeywordsNotList)
    else Ok(ByKeywords(keywords.words))
  }

  /** What resolution looks at in a speaker or a source. */
  datatype Handle = Handle(id: string, name: string, keywords: seq<string>)

  function SpeakerHandle(s: Speaker): Handle { Handle(s.id, s.name, s.keywords) }

  function SourceHandle(s: Source): Handle { Handle(s.id, s.name, s.keywords) }

  function SpeakerHandles(ss: seq<Speaker>): (hs: seq<Handle>)
    ensures |hs| == |ss| && forall i :: 0 <= i < |ss| ==> hs[i] == SpeakerHandle(ss[i])
  {
    seq(|ss|, i requires 0 <= i < |ss| => SpeakerHandle(ss[i]))
  }

  function SourceHandles(ss: seq<Source>): (hs: seq<Handle>)
    ensures |hs| == |ss| && forall i :: 0 <= i < |ss| ==> hs[i] == SourceHandle(ss[i])
  {
    seq(|ss|, i requires 0 <= i < |ss| => SourceHandle(ss[i]))
  }

  /** `all(kw.lower() in keywords for kw in words)`. */
  predicate HasKeywords(keywords: seq<string>, words: seq<string>) {
    forall w :: w in words ==> Lower(w) in keywords
  }

  /** The comparison of each search loop. */
  predicate Matches(sel: Selector, h: Handle) {
    match sel
    case ById(x) => Lower(h.id) == Lower(x)
    case ByName(x) => Lower(h.name) == Lower(x)
    case ByKeywords(ws) => HasKeywords(h.keywords, ws)
  }

  /** The search loop: the position of the last match, or the not-found
      error carrying the selector. */
  function Pick(hs: seq<Handle>, sel: Selector): (r: Result<nat>)
    ensures r.Ok? ==> r.value < |hs| && Matches(sel, hs[r.value])
    ensures r.Ok? ==> forall j :: r.value < j < |hs| ==> !Matches(sel, hs[j])
    ensures r.Err? <==> forall j :: 0 <= j < |hs| ==> !Matches(sel, hs[j])
    ensures r.Err? ==> r.error == NotFound(sel)
  {
    match LastIndex(hs, (h: Handle) => Matches(sel, h))
    case None => Err(NotFound(sel))
    case Some(i) => Ok(i)
  }

  /** `find_speaker` after its fetch: the selector checks come first, then
      a fetch that returned `None` fails the iteration, then the search. */
  function FindSpeaker(fetched: Option<seq<Speaker>>, id: string, name: string, keywords: KeywordArg): (r: Result<Speaker>)
    ensures SelectorOf(id, name, keywords).Err? ==> r == Err(SelectorOf(id, name, keywords).error)
    ensures SelectorOf(id, name, keywords).Ok? && fetched.None? ==> r == Err(NothingFetched)
    ensures r.Ok? ==> (fetched.Some? && r.value in fetched.value
      && Matches(SelectorOf(id, name, keywords).value, SpeakerHandle(r.value)))
  {
    var sel :- SelectorOf(id, name, keywords);
    if fetched.None? then Err(NothingFetched)
    else
      var i :- Pick(SpeakerHandles(fetched.value), sel);
      Ok(fetched.value[i])
  }

  lemma {:induction false} LowerTwice(s: string)
    ensures Lower(Lower(s)) == Lower(s)
  {
    forall i | 0 <= i < |s|
      ensures Lower(Lower(s))[i] == Lower(s)[i]
    {
    }
  }

  /** Ids, names and keywords compare without regard to case: selectors
      that agree once lower-cased pick the same entity. */
  lemma PickIgnoresCase(hs: seq<Handle>, a: string, b: string)
    requires Lower(a) == Lower(b)
    ensures Pick(hs, ById(a)).Ok? == Pick(hs, ById(b)).Ok?
    ensures Pick(hs, ById(a)).Ok? ==> Pick(hs, ById(a)) == Pick(hs, ById(b))
    ensures Pick(hs, ByName(a)).Ok? == Pick(hs, ByName(b)).Ok?
    ensures Pick(hs, ByName(a)).Ok? ==> Pick(hs, ByName(a)) == Pick(hs, ByName(b))
  {
    LastIndexAgrees(hs, (h: Handle) => Matches(ById(a), h), (h: Handle) => Matches(ById(b), h));
    LastIndexAgrees(hs, (h: Handle) => Matches(ByName(a), h), (h: Handle) => Matches(ByName(b), h));
  }

  /** A name and its lower-case form find the same entity. */
  lemma PickByLowerName(hs: seq<Handle>, name: string)
    ensures Pick(hs, ByName(Lower(name))).Ok? == Pick(hs, ByName(name)).Ok?
    ensures Pick(hs, ByName(name)).Ok? ==> Pick(hs, ByName(Lower(name))) == Pick(hs, ByName(name))
  {
    LowerTwice(name);
    PickIgnoresCase(hs, Lower(name), name);
  }

  /** The last match wins: an entity appended after the others is chosen
      whenever it matches, whatever came before it. */
  lemma PickLastWins(hs: seq<Handle>, h: Handle, sel: Selector)
    requires Matches(sel, h)
    ensures Pick(hs + [h], sel) == Ok(|hs|)
  {
  }

  /** An entity whose keywords contain the lower-cased form of each given
      word is found by those words unless a later entity also matches. */
  lemma PickByOwnKeywords(hs: seq<Handle>, i: nat)
    requires i < |hs| && forall k :: 0 <= k < |hs[i].keywords| ==> IsToken(hs[i].keywords[k])
    requires forall j :: i < j < |hs| ==> !HasKeywords(hs[j].keywords, hs[i].keywords)
    ensures Pick(hs, ByKeywords(hs[i].keywords)) == Ok(i)
  {
    var ws := hs[i].keywords;
    assert Matches(ByKeywords(ws), hs[i]) by {
      forall w | w in ws
        ensures Lower(w) in ws
      {
        var k :| 0 <= k < |ws| && ws[k] == w;
        assert IsToken(ws[k]);
        LowerFixed(w);
      }
    }
    var r := Pick(hs, ByKeywords(ws));
    assert r.Ok?;
    assert r.value == i;
  }

  /** The keywords `get_keywords` derives from a name find the entity
      carrying them. */
  lemma FoundByDerivedKeywords(hs: seq<Handle>, i: nat)
    requires i < |hs| && HasAlnum(hs[i].name) && hs[i].keywords == GetKeywords(hs[i].name)
    requires forall j :: i < j < |hs| ==> !HasKeywords(hs[j].keywords, hs[i].keywords)
    ensures Pick(hs, ByKeywords(GetKeywords(hs[i].name))) == Ok(i)
  {
    KeywordsAreTokens(hs[i].name);
    PickByOwnKeywords(hs, i);
  }
}
