/** Wikipedia page resolution with language fallback (`fetch_wikipedia`): for
    each ranked bid, try its English references first and its non-English
    references, translated through the English language link, second; a page
    counts only when its text is longer than 10 characters; collect at most
    `max_docs` pages per group, in bid order. The encyclopedia is abstract:
    an English page fetch and a per-language page lookup. */
module FetchWikipedia {
  import opened Wrappers
  import opened Text
  import Disambiguation

  type Bid = Disambiguation.Bid

  /** The dictionary built by `fetch_wikipedia_page`. */
  datatype Page = Page(title: string, summary: string, pageId: int, text: string,
                       categories: seq<string>, sections: seq<string>)

  /** A `(title, lang)` reference of a synset; language codes are upper-case ("EN", "FR"). */
  datatype WikiRef = WikiRef(title: string, lang: string)

  /** The direct and the redirect references of one synset (`babelnet_dict[bid]`). */
  datatype SynsetRefs = SynsetRefs(direct: seq<WikiRef>, redirect: seq<WikiRef>)

  /** What looking up a page in some language's edition gives: the client
      raised, the page does not exist, or the page and its language links
      (language code to linked title). */
  datatype Lookup = LookupFailed | Missing | Exists(langLinks: map<string, string>)

  /** The encyclopedia: `fetchEn(title)` is the English page, or None when the
      client raised; `lookup(language, title)` is a page of any edition. */
  datatype Source = Source(fetchEn: string -> Option<Page>, lookup: (string, string) -> Lookup)

  /** Pages whose text is not longer than this are discarded as stubs. */
  const MinTextLength := 10

  /** `toeng`: the English title linked from a page of another edition. None
      (the source's `False`) when the lookup raised, the page does not exist,
      the language is already "en", or there is no "en" link. */
  function ToEng(src: Source, language: string, pageTitle: string): (r: Option<string>)
    ensures r.Some? <==>
      src.lookup(language, pageTitle).Exists? && language != "en" && "en" in src.lookup(language, pageTitle).langLinks
    ensures r.Some? ==> r.value == src.lookup(language, pageTitle).langLinks["en"]
    ensures language == "en" ==> r.None?
  {
    match src.lookup(language, pageTitle)
    case Exists(links) => if language != "en" && "en" in links then Some(links["en"]) else None
    case _ => None
  }

  /** A fetched page is accepted when its text is longer than the minimum. */
  predicate Accepted(p: Page)
  {
    |p.text| > MinTextLength
  }

  /** `get_wiki_page`: the English page for `title` when the fetch succeeded
      and the page is accepted; a raising fetch gives text "", hence None. */
  function GetWikiPage(src: Source, title: string): (r: Option<Page>)
    ensures r.Some? <==> src.fetchEn(title).Some? && Accepted(src.fetchEn(title).value)
    ensures r.Some? ==> r == src.fetchEn(title) && |r.value.text| > MinTextLength
  {
    match src.fetchEn(title)
    case Some(p) => if |p.text| > MinTextLength then Some(p) else None
    case None => None
  }

  // ---------------------------------------------------------------------------
  // First-match search
  // ---------------------------------------------------------------------------

  /** The first non-None result of `f` over `xs`, in order. */
  function FirstMatch<T, U>(xs: seq<T>, f: T -> Option<U>): (r: Option<U>)
    ensures r.None? <==> forall i :: 0 <= i < |xs| ==> f(xs[i]).None?
    ensures r.Some? ==> exists i :: 0 <= i < |xs| && f(xs[i]) == r && forall j :: 0 <= j < i ==> f(xs[j]).None?
  {
    if xs == [] then None
    else if f(xs[0]).Some? then f(xs[0])
    else
      var r := FirstMatch(xs[1..], f);
      assert forall i :: 1 <= i < |xs| ==> xs[1..][i - 1] == xs[i];
      r
  }

  /** Searching a concatenation searches the first part, then the second. */
  lemma {:induction false} FirstMatchAppend<T, U>(a: seq<T>, b: seq<T>, f: T -> Option<U>)
    ensures FirstMatch(a + b, f) == if FirstMatch(a, f).Some? then FirstMatch(a, f) else FirstMatch(b, f)
  {
    if a != [] {
      assert (a + b)[1..] == a[1..] + b;
      FirstMatchAppend(a[1..], b, f);
    } else {
      assert a + b == b;
    }
  }

  /** One English attempt: only references tagged "EN", fetched directly. */
  function EnAttempt(src: Source): WikiRef -> Option<Page>
  {
    (ref: WikiRef) => if ref.lang == "EN" then GetWikiPage(src, ref.title) else None
  }

  /** One non-English attempt: only references not tagged "EN", translated
      with the lowercased code; an empty or missing translation is skipped. */
  function NonEnAttempt(src: Source): WikiRef -> Option<Page>
  {
    (ref: WikiRef) =>
      if ref.lang == "EN" then None
      else
        match ToEng(src, Lower(ref.lang), ref.title)
        case Some(t) => if t != "" then GetWikiPage(src, t) else None
        case None => None
  }

  /** `get_en_pages`: the first accepted page of an "EN" reference, in list
      order; None when there is none. */
  function GetEnPages(src: Source, refs: seq<WikiRef>): (r: Option<Page>)
    ensures r.None? <==> forall i :: 0 <= i < |refs| && refs[i].lang == "EN" ==> GetWikiPage(src, refs[i].title).None?
    ensures r.Some? ==> exists i :: 0 <= i < |refs| && refs[i].lang == "EN" && GetWikiPage(src, refs[i].title) == r &&
                                    forall j :: 0 <= j < i && refs[j].lang == "EN" ==> GetWikiPage(src, refs[j].title).None?
  {
    var f := EnAttempt(src);
    var r := FirstMatch(refs, f);
    assert forall i :: 0 <= i < |refs| ==> f(refs[i]) == (if refs[i].lang == "EN" then GetWikiPage(src, refs[i].title) else None);
    r
  }

  /** `get_non_en_pages`: the first accepted page reached through the English
      link of a non-"EN" reference, in list order; None when there is none. */
  function GetNonEnPages(src: Source, refs: seq<WikiRef>): (r: Option<Page>)
    ensures r.None? <==> forall i :: 0 <= i < |refs| ==> NonEnAttempt(src)(refs[i]).None?
    ensures r.Some? ==> exists i :: 0 <= i < |refs| && refs[i].lang != "EN" &&
                                    ToEng(src, Lower(refs[i].lang), refs[i].title).Some? &&
                                    ToEng(src, Lower(refs[i].lang), refs[i].title).value != "" &&
                                    r == GetWikiPage(src, ToEng(src, Lower(refs[i].lang), refs[i].title).value) &&
                                    forall j :: 0 <= j < i ==> NonEnAttempt(src)(refs[j]).None?
  {
    FirstMatch(refs, NonEnAttempt(src))
  }

  /** An "EN" reference never takes part in the non-English search. */
  lemma NonEnSkipsEnglish(src: Source, ref: WikiRef)
    requires ref.lang == "EN"
    ensures NonEnAttempt(src)(ref).None?
  {
  }

  /** Direct references are searched before redirect references. */
  lemma DirectBeforeRedirect(src: Source, refs: SynsetRefs)
    ensures GetEnPages(src, refs.direct + refs.redirect) ==
      if GetEnPages(src, refs.direct).Some? then GetEnPages(src, refs.direct) else GetEnPages(src, refs.redirect)
    ensures GetNonEnPages(src, refs.direct + refs.redirect) ==
      if GetNonEnPages(src, refs.direct).Some? then GetNonEnPages(src, refs.direct) else GetNonEnPages(src, refs.redirect)
  {
    FirstMatchAppend(refs.direct, refs.redirect, EnAttempt(src));
    FirstMatchAppend(refs.direct, refs.redirect, NonEnAttempt(src));
  }

  /** The page one bid contributes: English search first, non-English search
      only when the English one found nothing. */
  function ResolveBid(src: Source, refs: SynsetRefs): (r: Option<Page>)
    ensures GetEnPages(src, refs.direct + refs.redirect).Some? ==> r == GetEnPages(src, refs.direct + refs.redirect)
    ensures GetEnPages(src, refs.direct + refs.redirect).None? ==> r == GetNonEnPages(src, refs.direct + refs.redirect)
    ensures r.Some? ==> Accepted(r.value)
  {
    var all := refs.direct + refs.redirect;
    match GetEnPages(src, all)
    case Some(p) => Some(p)
    case None => GetNonEnPages(src, all)
  }

  // ---------------------------------------------------------------------------
  // process_group_bids
  // ---------------------------------------------------------------------------

  /** The pages of the bids whose resolution succeeds, in bid order (at most one per bid). */
  function Successes(resolve: SynsetRefs -> Option<Page>, dict: map<Bid, SynsetRefs>, bids: seq<Bid>): (r: seq<Page>)
    ensures |r| <= |bids|
  {
    if bids == [] then []
    else
      (if bids[0] in dict && resolve(dict[bids[0]]).Some? then [resolve(dict[bids[0]]).value] else [])
      + Successes(resolve, dict, bids[1..])
  }

  /** The resolution of one bid's references, as a function. */
  function Resolver(src: Source): SynsetRefs -> Option<Page>
  {
    (refs: SynsetRefs) => ResolveBid(src, refs)
  }

  /** Every page a group collects with the real resolution is accepted. */
  lemma {:induction false} SuccessesAccepted(src: Source, dict: map<Bid, SynsetRefs>, bids: seq<Bid>)
    ensures forall k :: 0 <= k < |Successes(Resolver(src), dict, bids)| ==> Accepted(Successes(Resolver(src), dict, bids)[k])
  {
    if bids != [] {
      SuccessesAccepted(src, dict, bids[1..]);
    }
  }

  /** The loop of `process_group_bids` from a given point, with the pages
      collected so far: stop at the cap or at the end; a bid missing from the
      dictionary raises KeyError (reported here as that bid). */
  function GroupFrom(resolve: SynsetRefs -> Option<Page>, dict: map<Bid, SynsetRefs>, bids: seq<Bid>, maxDocs: int, acc: seq<Page>): Result<seq<Page>, Bid>
  {
    if bids == [] || |acc| >= maxDocs then Ok(acc)
    else if bids[0] !in dict then Err(bids[0])
    else
      var p := resolve(dict[bids[0]]);
      GroupFrom(resolve, dict, bids[1..], maxDocs, acc + (if p.Some? then [p.value] else []))
  }

  /** The result of `process_group_bids(group_bids, babelnet_dict, max_docs)`. */
  function GroupPages(resolve: SynsetRefs -> Option<Page>, dict: map<Bid, SynsetRefs>, bids: seq<Bid>, maxDocs: int): Result<seq<Page>, Bid>
  {
    GroupFrom(resolve, dict, bids, maxDocs, [])
  }

  /** `process_group_bids`: append the page of each bid until `max_docs`
      pages are collected. */
  method ProcessGroupBids(src: Source, dict: map<Bid, SynsetRefs>, groupBids: seq<Bid>, maxDocs: int)
    returns (r: Result<seq<Page>, Bid>)
    ensures r == GroupPages(Resolver(src), dict, groupBids, maxDocs)
  {
    var groupPages: seq<Page> := [];
    var i := 0;
    while i < |groupBids|
      invariant 0 <= i <= |groupBids|
      invariant GroupFrom(Resolver(src), dict, groupBids[i..], maxDocs, groupPages) == GroupPages(Resolver(src), dict, groupBids, maxDocs)
    {
      if |groupPages| >= maxDocs {
        break;
      }
      var bid := groupBids[i];
      assert groupBids[i..][1..] == groupBids[i + 1..];
      if bid !in dict {
        return Err(bid);
      }
      var refs := dict[bid];
      var all := refs.direct + refs.redirect;
      var p := GetEnPages(src, all);
      if p.None? {
        p := GetNonEnPages(src, all);
      }
      assert Resolver(src)(refs) == p;
      assert GroupFrom(Resolver(src), dict, groupBids[i..], maxDocs, groupPages) ==
        GroupFrom(Resolver(src), dict, groupBids[i + 1..], maxDocs, groupPages + (if p.Some? then [p.value] else []));
      if p.Some? {
        groupPages := groupPages + [p.value];
      } else {
        assert groupPages + [] == groupPages;
      }
      i := i + 1;
    }
    r := Ok(groupPages);
  }

  /** How many bids the loop looks up before it stops (when it does not raise). */
  function Visited(resolve: SynsetRefs -> Option<Page>, dict: map<Bid, SynsetRefs>, bids: seq<Bid>, maxDocs: int, acc: seq<Page>): (k: nat)
    ensures k <= |bids|
  {
    if bids == [] || |acc| >= maxDocs || bids[0] !in dict then 0
    else
      var p := resolve(dict[bids[0]]);
      1 + Visited(resolve, dict, bids[1..], maxDocs, acc + (if p.Some? then [p.value] else []))
  }

  /** Successes of a non-empty prefix: the first bid's page, then the rest. */
  lemma SuccessesPrefix(resolve: SynsetRefs -> Option<Page>, dict: map<Bid, SynsetRefs>, bids: seq<Bid>, k: nat)
    requires 0 < |bids| && k < |bids|
    ensures Successes(resolve, dict, bids[..k + 1]) ==
      (if bids[0] in dict && resolve(dict[bids[0]]).Some? then [resolve(dict[bids[0]]).value] else [])
      + Successes(resolve, dict, bids[1..][..k])
  {
    assert bids[..k + 1][1..] == bids[1..][..k];
  }

  lemma {:induction false} GroupFromShape(resolve: SynsetRefs -> Option<Page>, dict: map<Bid, SynsetRefs>, bids: seq<Bid>, maxDocs: int, acc: seq<Page>)
    requires GroupFrom(resolve, dict, bids, maxDocs, acc).Ok?
    ensures var r := GroupFrom(resolve, dict, bids, maxDocs, acc).value;
      var k := Visited(resolve, dict, bids, maxDocs, acc);
      r == acc + Successes(resolve, dict, bids[..k]) && (k < |bids| ==> |r| >= maxDocs) &&
      |r| <= (if |acc| >= maxDocs then |acc| else maxDocs)
    decreases |bids|
  {
    if bids == [] || |acc| >= maxDocs {
      assert bids[..0] == [];
    } else {
      var p := resolve(dict[bids[0]]);
      var acc' := acc + (if p.Some? then [p.value] else []);
      GroupFromShape(resolve, dict, bids[1..], maxDocs, acc');
      SuccessesPrefix(resolve, dict, bids, Visited(resolve, dict, bids[1..], maxDocs, acc'));
    }
  }

  /** The pages of a group are the successes of a prefix of its bids, in bid
      order; never more than `max_docs`; and when bids were left unvisited the
      cap was reached, so the group holds the first `max_docs` successes. */
  lemma GroupPagesShape(resolve: SynsetRefs -> Option<Page>, dict: map<Bid, SynsetRefs>, bids: seq<Bid>, maxDocs: int)
    requires GroupPages(resolve, dict, bids, maxDocs).Ok?
    ensures var r := GroupPages(resolve, dict, bids, maxDocs).value;
      var cap := if maxDocs <= 0 then 0 else maxDocs;
      |r| <= cap &&
      exists k :: 0 <= k <= |bids| && r == Successes(resolve, dict, bids[..k]) && (k < |bids| ==> |r| == cap)
  {
    GroupFromShape(resolve, dict, bids, maxDocs, []);
    var k := Visited(resolve, dict, bids, maxDocs, []);
    assert GroupPages(resolve, dict, bids, maxDocs).value == Successes(resolve, dict, bids[..k]);
  }

  /** A missing bid is the only way the group fails, and the failure names it. */
  lemma {:induction false} GroupFromError(resolve: SynsetRefs -> Option<Page>, dict: map<Bid, SynsetRefs>, bids: seq<Bid>, maxDocs: int, acc: seq<Page>)
    ensures GroupFrom(resolve, dict, bids, maxDocs, acc).Err? ==>
      GroupFrom(resolve, dict, bids, maxDocs, acc).error in bids && GroupFrom(resolve, dict, bids, maxDocs, acc).error !in dict
    ensures (forall j :: 0 <= j < |bids| ==> bids[j] in dict) ==> GroupFrom(resolve, dict, bids, maxDocs, acc).Ok?
    decreases |bids|
  {
    if bids != [] && |acc| < maxDocs && bids[0] in dict {
      var p := resolve(dict[bids[0]]);
      GroupFromError(resolve, dict, bids[1..], maxDocs, acc + (if p.Some? then [p.value] else []));
      assert forall j :: 0 <= j < |bids[1..]| ==> bids[1..][j] == bids[j + 1];
    }
  }

  /** The first bid is always looked up while the cap is positive: a missing
      first bid raises. */
  lemma MissingFirstBidRaises(resolve: SynsetRefs -> Option<Page>, dict: map<Bid, SynsetRefs>, bids: seq<Bid>, maxDocs: int)
    requires bids != [] && bids[0] !in dict && maxDocs > 0
    ensures GroupPages(resolve, dict, bids, maxDocs) == Err(bids[0])
  {
  }

  // ---------------------------------------------------------------------------
  // wiki_retrieval
  // ---------------------------------------------------------------------------

  /** `[[j['bid'] for j in i] for i in y]`: the bid groups of the lemma results. */
  function BidGroups(lemmaResults: seq<seq<Disambiguation.Scored>>): (r: seq<seq<Bid>>)
    ensures |r| == |lemmaResults|
    ensures forall i :: 0 <= i < |r| ==> r[i] == Disambiguation.BidsOf(lemmaResults[i])
  {
    seq(|lemmaResults|, i requires 0 <= i < |lemmaResults| => Disambiguation.BidsOf(lemmaResults[i]))
  }

  /** `list(executor.map(process, all_bids))`: the groups in input order; the
      first group (in input order) that raises makes the whole call raise. */
  method WikiRetrieval(src: Source, dict: map<Bid, SynsetRefs>, lemmaResults: seq<seq<Disambiguation.Scored>>, maxDocs: int)
    returns (r: Result<seq<seq<Page>>, Bid>)
    ensures var groups := BidGroups(lemmaResults);
      r.Ok? <==> forall i :: 0 <= i < |groups| ==> GroupPages(Resolver(src), dict, groups[i], maxDocs).Ok?
    ensures var groups := BidGroups(lemmaResults);
      r.Ok? ==> (|r.value| == |lemmaResults| &&
                 forall i :: 0 <= i < |groups| ==> GroupPages(Resolver(src), dict, groups[i], maxDocs) == Ok(r.value[i]))
    ensures var groups := BidGroups(lemmaResults);
      r.Err? ==> exists i :: 0 <= i < |groups| && GroupPages(Resolver(src), dict, groups[i], maxDocs) == Err(r.error) &&
                             forall j :: 0 <= j < i ==> GroupPages(Resolver(src), dict, groups[j], maxDocs).Ok?
  {
    var allBids := BidGroups(lemmaResults);
    var outputs: seq<seq<Page>> := [];
    for i := 0 to |allBids|
      invariant |outputs| == i
      invariant forall j :: 0 <= j < i ==> GroupPages(Resolver(src), dict, allBids[j], maxDocs) == Ok(outputs[j])
    {
      var group := ProcessGroupBids(src, dict, allBids[i], maxDocs);
      if group.Err? {
        assert GroupPages(Resolver(src), dict, allBids[i], maxDocs) == Err(group.error);
        return Err(group.error);
      }
      outputs := outputs + [group.value];
    }
    r := Ok(outputs);
  }
}
