/** The development service worker: requests for the CDN copies of two
    libraries are redirected to a local server by swapping the URL prefix;
    every other request goes out as it came in. */
module DevServiceWorker {
  import opened JsValues

  /** One entry of `mappings`: requests under `from` go under `to`. */
  datatype Mapping = Mapping(from: string, to: string)

  /** The table, in the order the worker consults it. */
  const Mappings: seq<Mapping> := [
    Mapping("https://cdn.cian.site/ui-kit/", "http://localhost:8000/ui-kit/"),
    Mapping("https://cdn.cian.site/the-platform/", "http://localhost:8000/the-platform/")
  ]

  /** What the handler passes to `event.respondWith(fetch(...))`: the
      original request, or a new request built from a URL alone. */
  datatype Fetch = Original | Fresh(url: string)

  /** `s.startsWith(prefix)`. */
  predicate StartsWith(s: string, prefix: string) {
    |prefix| <= |s| && s[..|prefix|] == prefix
  }

  /** `pat` occurs in `s` at position `j`. */
  predicate OccursAt(s: string, pat: string, j: nat) {
    j + |pat| <= |s| && s[j..j + |pat|] == pat
  }

  /** The first position at or after `i` where `pat` occurs in `s`. */
  function FindFrom(s: string, pat: string, i: nat): (r: Option<nat>)
    decreases |s| - i
    ensures r.Some? ==> i <= r.value && OccursAt(s, pat, r.value)
    ensures r.Some? ==> forall j :: i <= j < r.value ==> !OccursAt(s, pat, j)
    ensures r.None? ==> forall j :: i <= j ==> !OccursAt(s, pat, j)
  {
    if i + |pat| > |s| then None
    else if s[i..i + |pat|] == pat then Some(i)
    else FindFrom(s, pat, i + 1)
  }

  /** The replacement text `rep` as `String.prototype.replace` expands it
      for a string pattern (section 22.1.3.19.1, GetSubstitution, of
      ECMA-262): `$$` gives `$`, `$&` the matched text, `` $` `` the text
      before the match and `$'` the text after it; any other `$` stands for
      itself, as there are no capture groups. */
  function Expand(rep: string, matched: string, before: string, after: string): string
    decreases |rep|
  {
    if rep == [] then []
    else if rep[0] == '$' && |rep| > 1 && rep[1] in "$&`'" then
      (if rep[1] == '$' then "$" else if rep[1] == '&' then matched else if rep[1] == '`' then before else after)
      + Expand(rep[2..], matched, before, after)
    else [rep[0]] + Expand(rep[1..], matched, before, after)
  }

  /** `rep` holds no `$`. */
  predicate NoDollar(rep: string) {
    '$' !in rep
  }

  /** A replacement without `$` is inserted as it is. */
  lemma {:induction false} ExpandPlain(rep: string, matched: string, before: string, after: string)
    requires NoDollar(rep)
    ensures Expand(rep, matched, before, after) == rep
    decreases |rep|
  {
    if rep != [] {
      assert rep[0] in rep;
      assert NoDollar(rep[1..]) by {
        forall c | c in rep[1..] ensures c in rep {
        }
      }
      ExpandPlain(rep[1..], matched, before, after);
      assert rep == [rep[0]] + rep[1..];
    }
  }

  /** `s.replace(pat, rep)` with a string pattern: the first occurrence is
      replaced by the expansion of `rep`, and `s` is returned as it is when
      there is none. */
  function ReplaceFirst(s: string, pat: string, rep: string): string {
    match FindFrom(s, pat, 0)
    case None => s
    case Some(k) => s[..k] + Expand(rep, pat, s[..k], s[k + |pat|..]) + s[k + |pat|..]
  }

  /** When `s` starts with `pat`, the first occurrence is the one at the
      start, so the replacement swaps the prefix for the expansion of
      `rep`, which is `rep` itself when it holds no `$`. */
  lemma ReplacePrefix(s: string, pat: string, rep: string)
    requires StartsWith(s, pat)
    ensures ReplaceFirst(s, pat, rep) == Expand(rep, pat, "", s[|pat|..]) + s[|pat|..]
    ensures NoDollar(rep) ==> ReplaceFirst(s, pat, rep) == rep + s[|pat|..]
  {
    assert s[0..|pat|] == pat;
    assert FindFrom(s, pat, 0) == Some(0);
    assert s[..0] == "";
    if NoDollar(rep) {
      ExpandPlain(rep, pat, "", s[|pat|..]);
    }
  }

  /** The index of the first mapping whose `from` starts `url`. */
  function FirstMatch(url: string, ms: seq<Mapping>): (r: Option<nat>)
    ensures r.Some? ==> r.value < |ms| && StartsWith(url, ms[r.value].from)
    ensures r.Some? ==> forall j :: 0 <= j < r.value ==> !StartsWith(url, ms[j].from)
    ensures r.None? ==> forall j :: 0 <= j < |ms| ==> !StartsWith(url, ms[j].from)
  {
    if ms == [] then None
    else if StartsWith(url, ms[0].from) then Some(0)
    else match FirstMatch(url, ms[1..])
      case None => None
      case Some(k) => Some(k + 1)
  }

  /** What the fetch handler asks for. */
  function Respond(url: string, ms: seq<Mapping>): Fetch {
    match FirstMatch(url, ms)
    case None => Original
    case Some(i) => Fresh(ReplaceFirst(url, ms[i].from, ms[i].to))
  }

  /** The URL that goes out. */
  function Fetched(url: string, ms: seq<Mapping>): string {
    match Respond(url, ms)
    case Original => url
    case Fresh(u) => u
  }

  /** The rewrite: the first mapping whose `from` starts the URL decides,
      and the request goes to the expansion of its `to` (its `to` itself
      when that holds no `$`) followed by the rest of the URL; with no such
      mapping the original request is forwarded. */
  lemma RespondSpec(url: string, ms: seq<Mapping>)
    ensures Respond(url, ms).Original? <==> forall j :: 0 <= j < |ms| ==> !StartsWith(url, ms[j].from)
    ensures forall i :: (0 <= i < |ms| && StartsWith(url, ms[i].from)
      && (forall j :: 0 <= j < i ==> !StartsWith(url, ms[j].from))) ==>
      Respond(url, ms) == Fresh(Expand(ms[i].to, ms[i].from, "", url[|ms[i].from|..]) + url[|ms[i].from|..])
      && (NoDollar(ms[i].to) ==> Respond(url, ms) == Fresh(ms[i].to + url[|ms[i].from|..]))
  {
    match FirstMatch(url, ms)
    case None =>
    case Some(k) =>
      ReplacePrefix(url, ms[k].from, ms[k].to);
  }

  /** No later entry is consulted: adding mappings after one that matches
      changes nothing. */
  lemma {:induction false} FirstMatchWins(url: string, ms: seq<Mapping>, more: seq<Mapping>)
    requires FirstMatch(url, ms).Some?
    ensures Respond(url, ms + more) == Respond(url, ms)
  {
    var k := FirstMatch(url, ms).value;
    assert (ms + more)[k] == ms[k];
    assert FirstMatch(url, ms + more) == Some(k) by {
      FirstMatchIs(url, ms + more, k);
    }
  }

  /** The first match is the one index that matches with no match before
      it. */
  lemma {:induction false} FirstMatchIs(url: string, ms: seq<Mapping>, k: nat)
    requires k < |ms| && StartsWith(url, ms[k].from)
    requires forall j :: 0 <= j < k ==> !StartsWith(url, ms[j].from)
    ensures FirstMatch(url, ms) == Some(k)
  {
    if k > 0 {
      assert !StartsWith(url, ms[0].from);
      FirstMatchIs(url, ms[1..], k - 1);
    }
  }

  /** Two prefixes of one string agree wherever both are defined. */
  lemma PrefixesAgree(s: string, a: string, b: string, i: nat)
    requires StartsWith(s, a) && StartsWith(s, b) && i < |a| && i < |b|
    ensures a[i] == b[i]
  {
    assert a[i] == s[..|a|][i];
    assert b[i] == s[..|b|][i];
  }

  /** Every `from` goes on `https` and every `to` on `http:`, so the two
      part at the fifth character, and no `to` holds a `$`. */
  predicate Separated(ms: seq<Mapping>) {
    forall j :: 0 <= j < |ms| ==>
      |ms[j].from| > 4 && ms[j].from[4] == 's' && |ms[j].to| > 4 && ms[j].to[4] == ':' && NoDollar(ms[j].to)
  }

  lemma MappingsSeparated()
    ensures Separated(Mappings)
  {
    MappingsPlain();
  }

  /** No `to` of the table holds a `$`. */
  lemma MappingsPlain()
    ensures NoDollar(Mappings[0].to) && NoDollar(Mappings[1].to)
  {
    assert NoDollar("http://localhost:8000/ui-kit/");
    assert NoDollar("http://localhost:8000/the-platform/");
  }

  /** In a separated table a rewritten URL matches no mapping. */
  lemma RewrittenMatchesNothing(url: string, ms: seq<Mapping>)
    requires Separated(ms) && Respond(url, ms).Fresh?
    ensures Respond(Fetched(url, ms), ms) == Original
  {
    RespondSpec(url, ms);
    var k := FirstMatch(url, ms).value;
    var u := Fetched(url, ms);
    assert u == ms[k].to + url[|ms[k].from|..];
    assert StartsWith(u, ms[k].to) by {
      assert u[..|ms[k].to|] == ms[k].to;
    }
    forall j | 0 <= j < |ms| ensures !StartsWith(u, ms[j].from) {
      if StartsWith(u, ms[j].from) {
        PrefixesAgree(u, ms[j].from, ms[k].to, 4);
        assert false;
      }
    }
    RespondSpec(u, ms);
  }

  /** Rewriting is idempotent: a request the worker sends out again comes
      out with the same URL. */
  lemma FetchedIdempotent(url: string)
    ensures Fetched(Fetched(url, Mappings), Mappings) == Fetched(url, Mappings)
  {
    if Respond(url, Mappings).Fresh? {
      MappingsSeparated();
      RewrittenMatchesNothing(url, Mappings);
    }
  }

  /** The `fetch` listener: walks the table in order and responds with the
      rewritten request at the first `from` that starts the URL, returning
      at once; only when none does it responds with the original request.
      `responses` lists the `respondWith` calls: there is exactly one, and
      it is what `Respond` says. */
  method OnFetch(url: string) returns (responses: seq<Fetch>)
    ensures responses == [Respond(url, Mappings)]
  {
    responses := [];
    for i := 0 to |Mappings|
      invariant responses == []
      invariant forall j :: 0 <= j < i ==> !StartsWith(url, Mappings[j].from)
    {
      var mapping := Mappings[i];
      if StartsWith(url, mapping.from) {
        FirstMatchIs(url, Mappings, i);
        var req := ReplaceFirst(url, mapping.from, mapping.to);
        responses := responses + [Fresh(req)];
        return;
      }
    }
    responses := responses + [Original];
  }
}
