/**
 Listing the sources of a grounded answer (`_formatGroundingMetadata`): the loop that fills a
 map of sources with sets of excerpts, against a declarative group-by over the citations.
 `Map` and `Set` keep insertion order, so both are sequences here.
 */
module Grounding {
  import opened Common

  /** A missing uri or title is the empty string. */
  datatype Reference = Reference(uri: string, title: string)
  datatype Chunk = Chunk(web: Option<Reference>, retrieved: Option<Reference>)
  datatype Support = Support(text: string, chunkIndices: seq<int>)
  datatype Source = Source(uri: string, title: string, domain: string, excerpts: seq<string>)

  /** `new URL(uri).hostname`, with `None` for a uri it throws on. */
  type HostOf = string -> Option<string>

  function FirstNonEmpty(a: string, b: string): string {
    if a != "" then a else b
  }

  function Uri(c: Chunk): string {
    FirstNonEmpty(if c.web.Some? then c.web.value.uri else "", if c.retrieved.Some? then c.retrieved.value.uri else "")
  }

  function Title(c: Chunk): string {
    FirstNonEmpty(if c.web.Some? then c.web.value.title else "", if c.retrieved.Some? then c.retrieved.value.title else "")
  }

  predicate IsHttp(uri: string) {
    "http" <= uri
  }

  function Domain(host: HostOf, uri: string): string {
    if IsHttp(uri) && host(uri).Some? then host(uri).value else ""
  }

  /** A domain is looked up exactly for uris that start with these four letters. */
  lemma DomainLookedUpIff(host: HostOf, uri: string, name: string)
    requires host(uri) == Some(name) && name != ""
    ensures Domain(host, uri) == name <==> |uri| >= 4 && uri[0] == 'h' && uri[1] == 't' && uri[2] == 't' && uri[3] == 'p'
    ensures Domain(host, uri) == name || Domain(host, uri) == ""
  {
    assert "http" == ['h', 't', 't', 'p'];
    if |uri| >= 4 && uri[0] == 'h' && uri[1] == 't' && uri[2] == 't' && uri[3] == 'p' {
      assert uri[..4] == "http";
    }
  }

  /** What throws: a uri that starts like this and has no host. */
  lemma BadUriIff(host: HostOf, cs: seq<Citation>)
    ensures HasBadUri(host, cs) <==>
      exists c :: c in cs && |c.uri| >= 4 && c.uri[..4] == "http" && host(c.uri).None?
  {}

  // ---------- the group-by ----------

  /** One excerpt citing one source. */
  datatype Citation = Citation(uri: string, title: string, text: string)

  /** What one chunk index cites: nothing when out of range or without uri. */
  function Cited(chunks: seq<Chunk>, text: string, index: int): seq<Citation> {
    if 0 <= index < |chunks| && Uri(chunks[index]) != "" then
      [Citation(Uri(chunks[index]), Title(chunks[index]), text)]
    else []
  }

  function CitedBy(chunks: seq<Chunk>, text: string, indices: seq<int>): seq<Citation> {
    if indices == [] then [] else Cited(chunks, text, indices[0]) + CitedBy(chunks, text, indices[1..])
  }

  /** All citations, in the order the loops meet them. */
  function Citations(chunks: seq<Chunk>, supports: seq<Support>): seq<Citation> {
    if supports == [] then []
    else CitedBy(chunks, supports[0].text, supports[0].chunkIndices) + Citations(chunks, supports[1..])
  }

  // ---------- what the citations are ----------

  /** The first of the two that is there and not empty, the web's before the retrieved one's. */
  ghost predicate IsFirstGiven(web: Option<string>, retrieved: Option<string>, v: string) {
    if web.Some? && web.value != "" then v == web.value
    else if retrieved.Some? then v == retrieved.value
    else v == ""
  }

  function UriOf(r: Option<Reference>): Option<string> {
    if r.Some? then Some(r.value.uri) else None
  }

  function TitleOf(r: Option<Reference>): Option<string> {
    if r.Some? then Some(r.value.title) else None
  }

  /** The `k`-th index of a support cites `c`: it is in range and its chunk has a uri. */
  ghost predicate Cites(chunks: seq<Chunk>, s: Support, k: int, c: Citation) {
    && 0 <= k < |s.chunkIndices| && 0 <= s.chunkIndices[k] < |chunks|
    && var chunk := chunks[s.chunkIndices[k]];
       && c.uri != "" && IsFirstGiven(UriOf(chunk.web), UriOf(chunk.retrieved), c.uri)
       && IsFirstGiven(TitleOf(chunk.web), TitleOf(chunk.retrieved), c.title) && c.text == s.text
  }

  lemma CitedIff(chunks: seq<Chunk>, s: Support, k: nat, c: Citation)
    requires k < |s.chunkIndices|
    ensures c in Cited(chunks, s.text, s.chunkIndices[k]) <==> Cites(chunks, s, k, c)
  {}

  lemma {:induction false} CitedByIff(chunks: seq<Chunk>, s: Support, from: nat, c: Citation)
    requires from <= |s.chunkIndices|
    ensures c in CitedBy(chunks, s.text, s.chunkIndices[from..]) <==> exists k :: from <= k && Cites(chunks, s, k, c)
    decreases |s.chunkIndices| - from
  {
    if from < |s.chunkIndices| {
      var rest := s.chunkIndices[from..];
      assert rest[0] == s.chunkIndices[from] && rest[1..] == s.chunkIndices[from + 1..];
      CitedByIff(chunks, s, from + 1, c);
      CitedIff(chunks, s, from, c);
    }
  }

  /** The citations are exactly what the supports cite. */
  lemma {:induction false} CitationsIff(chunks: seq<Chunk>, supports: seq<Support>, c: Citation)
    ensures c in Citations(chunks, supports) <==> exists s, k :: s in supports && Cites(chunks, s, k, c)
  {
    if supports != [] {
      assert supports == [supports[0]] + supports[1..];
      CitationsIff(chunks, supports[1..], c);
      var s := supports[0];
      assert s.chunkIndices[0..] == s.chunkIndices;
      CitedByIff(chunks, s, 0, c);
    }
  }

  /** ... support by support and, within one, index by index. */
  lemma {:induction false} CitationsInOrder(chunks: seq<Chunk>, a: seq<Support>, b: seq<Support>)
    ensures Citations(chunks, a + b) == Citations(chunks, a) + Citations(chunks, b)
  {
    if a == [] {
      assert a + b == b;
    } else {
      var first, rest := CitedBy(chunks, a[0].text, a[0].chunkIndices), Citations(chunks, a[1..]);
      CitationsInOrder(chunks, a[1..], b);
      assert (a + b)[1..] == a[1..] + b && (a + b)[0] == a[0];
      assert Citations(chunks, a + b) == first + (rest + Citations(chunks, b));
      Associate(first, rest, Citations(chunks, b));
    }
  }

  lemma {:induction false} CitedByInOrder(chunks: seq<Chunk>, text: string, a: seq<int>, b: seq<int>)
    ensures CitedBy(chunks, text, a + b) == CitedBy(chunks, text, a) + CitedBy(chunks, text, b)
  {
    if a == [] {
      assert a + b == b;
    } else {
      CitedByInOrder(chunks, text, a[1..], b);
      assert (a + b)[1..] == a[1..] + b;
      Associate(Cited(chunks, text, a[0]), CitedBy(chunks, text, a[1..]), CitedBy(chunks, text, b));
    }
  }

  // ---------- grouping ----------

  /** First occurrences, in order. */
  function Distinct(s: seq<string>): seq<string> {
    if s == [] then []
    else
      var d := Distinct(s[..|s| - 1]);
      if s[|s| - 1] in d then d else d + [s[|s| - 1]]
  }

  function Uris(cs: seq<Citation>): seq<string> {
    if cs == [] then [] else Uris(cs[..|cs| - 1]) + [cs[|cs| - 1].uri]
  }

  /** The non-empty excerpts citing a source. */
  function Texts(cs: seq<Citation>, uri: string): seq<string> {
    if cs == [] then []
    else
      var last := cs[|cs| - 1];
      Texts(cs[..|cs| - 1], uri) + if last.uri == uri && last.text != "" then [last.text] else []
  }

  /** The title that came with the first citation of a source. */
  function FirstTitle(cs: seq<Citation>, uri: string): string {
    if cs == [] then "" else if cs[0].uri == uri then cs[0].title else FirstTitle(cs[1..], uri)
  }

  function Group(host: HostOf, cs: seq<Citation>, uri: string): Source {
    Source(uri, FirstTitle(cs, uri), Domain(host, uri), Distinct(Texts(cs, uri)))
  }

  function Groups(host: HostOf, cs: seq<Citation>, uris: seq<string>): (r: seq<Source>)
    ensures |r| == |uris| && forall i :: 0 <= i < |uris| ==> r[i] == Group(host, cs, uris[i])
  {
    seq(|uris|, i requires 0 <= i < |uris| => Group(host, cs, uris[i]))
  }

  /** Every source cited, in order of first citation, with its distinct excerpts. */
  function Grouped(host: HostOf, cs: seq<Citation>): seq<Source> {
    Groups(host, cs, Distinct(Uris(cs)))
  }

  // ---------- what Distinct is ----------

  lemma {:induction false} DistinctMembers(s: seq<string>)
    ensures NoDuplicates(Distinct(s))
    ensures forall x :: x in Distinct(s) <==> x in s
  {
    if s != [] {
      DistinctMembers(s[..|s| - 1]);
      assert s == s[..|s| - 1] + [s[|s| - 1]];
    }
  }

  /** Distinct lists the members by first occurrence. */
  lemma {:induction false} DistinctOrder(s: seq<string>, i: nat, j: nat)
    requires i < j < |Distinct(s)|
    ensures Distinct(s)[i] in s && Distinct(s)[j] in s
    ensures FirstIndex(s, Distinct(s)[i]) < FirstIndex(s, Distinct(s)[j])
    decreases |s|
  {
    var before, last := s[..|s| - 1], s[|s| - 1];
    assert s == before + [last];
    var d := Distinct(before);
    DistinctMembers(before);
    FirstIndexStable(before, [last], d[i]);
    if j < |d| {
      DistinctOrder(before, i, j);
      FirstIndexStable(before, [last], d[j]);
    } else {
      assert last !in before;
      assert forall k :: 0 <= k < |before| ==> before[k] != last && s[k] != last;
      assert last in s && FirstIndex(s, last) >= |before|;
    }
  }

  // ---------- one more citation ----------

  predicate Mentions(cs: seq<Citation>, uri: string) {
    exists c :: c in cs && c.uri == uri
  }

  lemma {:induction false} UrisMentioned(cs: seq<Citation>, uri: string)
    ensures uri in Uris(cs) <==> Mentions(cs, uri)
  {
    if cs != [] {
      UrisMentioned(cs[..|cs| - 1], uri);
      assert cs == cs[..|cs| - 1] + [cs[|cs| - 1]];
    }
  }

  lemma {:induction false} TitleStays(cs: seq<Citation>, c: Citation, uri: string)
    ensures FirstTitle(cs + [c], uri) ==
      if Mentions(cs, uri) then FirstTitle(cs, uri) else if c.uri == uri then c.title else ""
  {
    var t := cs + [c];
    if cs == [] {
      assert t[1..] == [];
    } else {
      assert t[1..] == cs[1..] + [c] && cs == [cs[0]] + cs[1..];
      TitleStays(cs[1..], c, uri);
    }
  }

  lemma {:induction false} UnmentionedHasNothing(cs: seq<Citation>, uri: string)
    requires !Mentions(cs, uri)
    ensures Texts(cs, uri) == [] && FirstTitle(cs, uri) == ""
  {
    if cs != [] {
      assert cs == cs[..|cs| - 1] + [cs[|cs| - 1]];
      assert cs[|cs| - 1] in cs;
      UnmentionedHasNothing(cs[..|cs| - 1], uri);
      TitleStays(cs[..|cs| - 1], cs[|cs| - 1], uri);
    }
  }

  /** `Set.add`. */
  function AddTo(s: seq<string>, x: string): seq<string> {
    if x in s then s else s + [x]
  }

  /** What the loop body does to the entry of the cited source. */
  function Update(host: HostOf, s: Source, c: Citation): Source {
    if c.text != "" then s.(excerpts := AddTo(s.excerpts, c.text)) else s
  }

  lemma DistinctAfter(s: seq<string>, x: string)
    ensures Distinct(s + [x]) == AddTo(Distinct(s), x)
  {
    assert (s + [x])[..|s|] == s;
  }

  lemma GroupAfter(host: HostOf, cs: seq<Citation>, c: Citation, uri: string)
    ensures Group(host, cs + [c], uri) ==
      if c.uri != uri then Group(host, cs, uri)
      else Update(host, if Mentions(cs, uri) then Group(host, cs, uri) else Source(uri, c.title, Domain(host, uri), []), c)
  {
    var t := cs + [c];
    assert t[..|t| - 1] == cs;
    TitleStays(cs, c, uri);
    if !Mentions(cs, uri) {
      UnmentionedHasNothing(cs, uri);
    }
    var texts := Texts(cs, uri);
    if c.uri == uri && c.text != "" {
      assert Texts(t, uri) == texts + [c.text];
      DistinctAfter(texts, c.text);
    } else {
      assert Texts(t, uri) == texts;
    }
  }

  lemma UrisAfter(cs: seq<Citation>, c: Citation)
    ensures Uris(cs + [c]) == Uris(cs) + [c.uri]
    ensures Distinct(Uris(cs + [c])) == AddTo(Distinct(Uris(cs)), c.uri)
  {
    assert (cs + [c])[..|cs|] == cs;
    DistinctAfter(Uris(cs), c.uri);
  }

  // ---------- the loops ----------

  /** The map under construction: its keys in insertion order, and its entries. */
  datatype SourceMap = SourceMap(order: seq<string>, entries: map<string, Source>)

  ghost predicate Represents(host: HostOf, m: SourceMap, cs: seq<Citation>) {
    && m.order == Distinct(Uris(cs))
    && m.entries.Keys == Elements(m.order)
    && forall u :: u in m.entries ==> m.entries[u] == Group(host, cs, u)
  }

  /** Some cited uri starts with "http" and is not a valid URL. */
  ghost predicate HasBadUri(host: HostOf, cs: seq<Citation>) {
    exists c :: c in cs && IsHttp(c.uri) && host(c.uri).None?
  }

  /** The map after one more citation. */
  function Record(host: HostOf, m: SourceMap, c: Citation): SourceMap {
    var entry := if c.uri in m.entries then m.entries[c.uri] else Source(c.uri, c.title, Domain(host, c.uri), []);
    SourceMap(AddTo(m.order, c.uri), m.entries[c.uri := Update(host, entry, c)])
  }

  lemma RecordEntry(host: HostOf, m: SourceMap, cs: seq<Citation>, c: Citation, u: string)
    requires Represents(host, m, cs) && u in Record(host, m, c).entries
    ensures Record(host, m, c).entries[u] == Group(host, cs + [c], u)
  {
    GroupAfter(host, cs, c, u);
    if u == c.uri {
      UrisMentioned(cs, u);
      DistinctMembers(Uris(cs));
      assert Mentions(cs, u) <==> u in m.entries;
    }
  }

  lemma KeysAdded(order: seq<string>, uri: string)
    ensures Elements(AddTo(order, uri)) == Elements(order) + {uri}
  {}

  lemma RecordRepresents(host: HostOf, m: SourceMap, cs: seq<Citation>, c: Citation)
    requires Represents(host, m, cs)
    ensures Represents(host, Record(host, m, c), cs + [c])
  {
    var r := Record(host, m, c);
    assert r.order == Distinct(Uris(cs + [c])) by { UrisAfter(cs, c); }
    assert r.entries.Keys == Elements(r.order) by { KeysAdded(m.order, c.uri); }
    forall u | u in r.entries ensures r.entries[u] == Group(host, cs + [c], u) {
      RecordEntry(host, m, cs, c, u);
    }
  }

  method Cite(host: HostOf, m: SourceMap, uri: string, title: string, domain: string, text: string)
    returns (r: SourceMap)
    requires (forall u :: u in m.order <==> u in m.entries) && domain == Domain(host, uri)
    ensures r == Record(host, m, Citation(uri, title, text))
  {
    r := m;
    if uri !in r.entries {
      r := SourceMap(r.order + [uri], r.entries[uri := Source(uri, title, domain, [])]);
    }
    if text != "" {
      var s := r.entries[uri];
      var excerpts := if text in s.excerpts then s.excerpts else s.excerpts + [text];
      r := r.(entries := r.entries[uri := s.(excerpts := excerpts)]);
    }
    assert r.entries == Record(host, m, Citation(uri, title, text)).entries;
  }

  lemma BadUriSplit(host: HostOf, a: seq<Citation>, b: seq<Citation>)
    ensures HasBadUri(host, a + b) <==> HasBadUri(host, a) || HasBadUri(host, b)
  {
    assert forall c :: c in a + b <==> c in a || c in b;
  }

  lemma CitedByStep(host: HostOf, chunks: seq<Chunk>, text: string, indices: seq<int>, i: nat, done: seq<Citation>)
    requires i < |indices| && done + CitedBy(chunks, text, indices[i..]) == CitedBy(chunks, text, indices)
    requires !HasBadUri(host, done)
    ensures var now := Cited(chunks, text, indices[i]);
      && (done + now) + CitedBy(chunks, text, indices[i + 1..]) == CitedBy(chunks, text, indices)
      && (HasBadUri(host, now) ==> HasBadUri(host, CitedBy(chunks, text, indices)))
      && (HasBadUri(host, done + now) ==> HasBadUri(host, now))
  {
    var now, later := Cited(chunks, text, indices[i]), CitedBy(chunks, text, indices[i + 1..]);
    assert indices[i..][0] == indices[i] && indices[i..][1..] == indices[i + 1..];
    assert done + (now + later) == (done + now) + later;
    BadUriSplit(host, done, now);
    BadUriSplit(host, done + now, later);
  }

  lemma CitationsStep(host: HostOf, chunks: seq<Chunk>, supports: seq<Support>, i: nat, done: seq<Citation>)
    requires i < |supports| && done + Citations(chunks, supports[i..]) == Citations(chunks, supports)
    requires !HasBadUri(host, done)
    ensures var now := CitedBy(chunks, supports[i].text, supports[i].chunkIndices);
      && (done + now) + Citations(chunks, supports[i + 1..]) == Citations(chunks, supports)
      && (HasBadUri(host, now) ==> HasBadUri(host, Citations(chunks, supports)))
      && (HasBadUri(host, done + now) ==> HasBadUri(host, now))
  {
    var now, later := CitedBy(chunks, supports[i].text, supports[i].chunkIndices), Citations(chunks, supports[i + 1..]);
    assert supports[i..][0] == supports[i] && supports[i..][1..] == supports[i + 1..];
    assert done + (now + later) == (done + now) + later;
    BadUriSplit(host, done, now);
    BadUriSplit(host, done + now, later);
  }

  /** One chunk index. `ok` is false where an invalid URL throws. */
  method CiteIndex(host: HostOf, chunks: seq<Chunk>, text: string, chunkIndex: int, m0: SourceMap, ghost cs: seq<Citation>)
    returns (ok: bool, m: SourceMap)
    requires Represents(host, m0, cs)
    ensures ok <==> !HasBadUri(host, Cited(chunks, text, chunkIndex))
    ensures ok ==> Represents(host, m, cs + Cited(chunks, text, chunkIndex))
  {
    ok, m := true, m0;
    if 0 <= chunkIndex < |chunks| {
      var uri, title := Uri(chunks[chunkIndex]), Title(chunks[chunkIndex]);
      ghost var c := Citation(uri, title, text);
      if IsHttp(uri) && host(uri).None? {
        assert c in Cited(chunks, text, chunkIndex);
        return false, m;
      }
      var domain := if IsHttp(uri) then host(uri).value else "";
      if uri != "" {
        RecordRepresents(host, m, cs, c);
        m := Cite(host, m, uri, title, domain, text);
        return true, m;
      }
    }
    assert Cited(chunks, text, chunkIndex) == [] && cs + [] == cs;
  }

  /** One support: every chunk index it cites. */
  method CiteAll(host: HostOf, chunks: seq<Chunk>, support: Support, m0: SourceMap, ghost cs: seq<Citation>)
    returns (ok: bool, m: SourceMap)
    requires Represents(host, m0, cs)
    ensures ok <==> !HasBadUri(host, CitedBy(chunks, support.text, support.chunkIndices))
    ensures ok ==> Represents(host, m, cs + CitedBy(chunks, support.text, support.chunkIndices))
  {
    var indices := support.chunkIndices;
    ok, m := true, m0;
    ghost var done := [];
    assert cs + done == cs;
    var i := 0;
    while i < |indices|
      invariant 0 <= i <= |indices| && ok
      invariant done + CitedBy(chunks, support.text, indices[i..]) == CitedBy(chunks, support.text, indices)
      invariant Represents(host, m, cs + done) && !HasBadUri(host, done)
    {
      ghost var now := Cited(chunks, support.text, indices[i]);
      CitedByStep(host, chunks, support.text, indices, i, done);
      ok, m := CiteIndex(host, chunks, support.text, indices[i], m, cs + done);
      if !ok {
        return;
      }
      Associate(cs, done, now);
      done := done + now;
      i := i + 1;
    }
    assert done == CitedBy(chunks, support.text, indices);
  }

  /** The sources of an answer: exactly the group-by of its citations, or an exception when a
      cited http uri is not a URL. */
  method CollectSources(host: HostOf, chunks: seq<Chunk>, supports: seq<Support>) returns (ok: bool, sources: seq<Source>)
    ensures ok <==> !HasBadUri(host, Citations(chunks, supports))
    ensures ok ==> sources == Grouped(host, Citations(chunks, supports))
  {
    var m := SourceMap([], map[]);
    ghost var done := [];
    ok, sources := true, [];
    var i := 0;
    while i < |supports|
      invariant 0 <= i <= |supports| && ok
      invariant done + Citations(chunks, supports[i..]) == Citations(chunks, supports)
      invariant Represents(host, m, done) && !HasBadUri(host, done)
    {
      ghost var now := CitedBy(chunks, supports[i].text, supports[i].chunkIndices);
      CitationsStep(host, chunks, supports, i, done);
      ok, m := CiteAll(host, chunks, supports[i], m, done);
      if !ok {
        return;
      }
      done := done + now;
      i := i + 1;
    }
    assert done == Citations(chunks, supports);
    sources := Values(host, m, done);
  }

  method Values(host: HostOf, m: SourceMap, ghost cs: seq<Citation>) returns (sources: seq<Source>)
    requires forall u :: u in m.order ==> u in m.entries && m.entries[u] == Group(host, cs, u)
    ensures sources == Groups(host, cs, m.order)
  {
    sources := [];
    for i := 0 to |m.order|
      invariant sources == Groups(host, cs, m.order)[..i]
    {
      assert m.order[i] in m.order;
      sources := sources + [m.entries[m.order[i]]];
    }
  }

  // ---------- printing ----------

  /** An excerpt as printed: at most 150 characters, the tail replaced by an ellipsis. */
  function Shorten(text: string): (r: string)
    ensures |r| <= 150
    ensures r == text <==> |text| <= 150
    ensures |text| > 150 ==> |r| == 150 && r[..147] == text[..147] && r[147..] == "..."
  {
    if |text| > 150 then text[..147] + "..." else text
  }

  const HEADER := "\n\n**Fontes:**\n"

  function Label(s: Source): string {
    FirstNonEmpty(FirstNonEmpty(s.title, s.domain), "Fonte Desconhecida")
  }

  function Heading(number: nat, s: Source): string {
    "\n[" + Decimal(number) + "] [" + Label(s) + "](" + s.uri + ")\n"
  }

  function ExcerptLine(text: string): string {
    "   * \"" + Shorten(text) + "\"\n"
  }

  function ExcerptLines(excerpts: seq<string>): string {
    if excerpts == [] then "" else ExcerptLine(excerpts[0]) + ExcerptLines(excerpts[1..])
  }

  /** A source's heading, with its number, and its excerpts. */
  function Entry(number: nat, s: Source): string {
    Heading(number, s) + ExcerptLines(s.excerpts)
  }

  /** The entries, numbered from `number` on. */
  function Entries(number: nat, sources: seq<Source>): string
    decreases |sources|
  {
    if sources == [] then "" else Entry(number, sources[0]) + Entries(number + 1, sources[1..])
  }

  /** The k-th source listed carries the number 1 + k, after the entries of those before it. */
  lemma {:induction false} EntryAt(number: nat, sources: seq<Source>, k: nat)
    requires k < |sources|
    ensures Entries(number, sources)
         == Entries(number, sources[..k]) + (Entry(number + k, sources[k]) + Entries(number + k + 1, sources[k + 1..]))
    decreases k
  {
    if k == 0 {
      assert sources[..0] == [];
      assert Entries(number, sources) == "" + Entries(number, sources);
    } else {
      var tail := sources[1..];
      var first, middle := Entry(number, sources[0]), Entries(number + 1, tail[..k - 1]);
      var rest := Entry(number + k, sources[k]) + Entries(number + k + 1, sources[k + 1..]);
      assert Entries(number + 1, tail) == middle + rest by {
        EntryAt(number + 1, tail, k - 1);
        assert tail[k..] == sources[k + 1..] && tail[k - 1] == sources[k];
      }
      assert Entries(number, sources[..k]) == first + middle by {
        assert sources[..k][1..] == tail[..k - 1] && sources[..k][0] == sources[0];
      }
      Associate(first, middle, rest);
    }
  }

  /** A printed entry: its number, the title or else the domain or else a stand-in, the uri, and a
      line per excerpt. */
  ghost predicate IsEntry(number: nat, s: Source, text: string) {
    exists digits, lines :: (
      && NumberOf(digits) == number
      && (forall c :: c in digits ==> '0' <= c <= '9')
      && |lines| == |s.excerpts|
      && (forall i :: 0 <= i < |lines| ==> lines[i] == "   * \"" + Shorten(s.excerpts[i]) + "\"\n")
      && text == "\n[" + digits + "] ["
                 + (if s.title != "" then s.title else if s.domain != "" then s.domain else "Fonte Desconhecida")
                 + "](" + s.uri + ")\n" + Concat(lines))
  }

  lemma {:induction false} ExcerptLinesAre(excerpts: seq<string>) returns (lines: seq<string>)
    ensures |lines| == |excerpts| && ExcerptLines(excerpts) == Concat(lines)
    ensures forall i :: 0 <= i < |lines| ==> lines[i] == "   * \"" + Shorten(excerpts[i]) + "\"\n"
  {
    if excerpts == [] {
      lines := [];
    } else {
      var rest := ExcerptLinesAre(excerpts[1..]);
      lines := [ExcerptLine(excerpts[0])] + rest;
      assert lines[1..] == rest;
    }
  }

  lemma EntryIsEntry(number: nat, s: Source)
    ensures IsEntry(number, s, Entry(number, s))
  {
    var lines := ExcerptLinesAre(s.excerpts);
    DecimalIsNotation(number);
    var digits := Decimal(number);
    assert Entry(number, s) == "\n[" + digits + "] [" + Label(s) + "](" + s.uri + ")\n" + Concat(lines);
  }

  /** The list: a heading and one entry per source, numbered from 1. */
  ghost predicate IsSourceList(sources: seq<Source>, text: string) {
    exists entries :: (
      && |entries| == |sources|
      && (forall k :: 0 <= k < |entries| ==> IsEntry(1 + k, sources[k], entries[k]))
      && text == "\n\n**Fontes:**\n" + Concat(entries))
  }

  lemma {:induction false} EntriesAre(number: nat, sources: seq<Source>) returns (entries: seq<string>)
    ensures |entries| == |sources| && Entries(number, sources) == Concat(entries)
    ensures forall k :: 0 <= k < |entries| ==> IsEntry(number + k, sources[k], entries[k])
    decreases |sources|
  {
    if sources == [] {
      entries := [];
    } else {
      var rest := EntriesAre(number + 1, sources[1..]);
      EntryIsEntry(number, sources[0]);
      entries := [Entry(number, sources[0])] + rest;
      assert entries[1..] == rest;
      forall k | 0 <= k < |entries| ensures IsEntry(number + k, sources[k], entries[k]) {
        if k > 0 {
          assert entries[k] == rest[k - 1] && sources[k] == sources[1..][k - 1];
        }
      }
    }
  }

  lemma ListIsSourceList(sources: seq<Source>)
    ensures IsSourceList(sources, HEADER + Entries(1, sources))
  {
    var entries := EntriesAre(1, sources);
  }

  method PrintExcerpts(excerpts: seq<string>, text0: string) returns (text: string)
    ensures text == text0 + ExcerptLines(excerpts)
  {
    text := text0;
    var i := 0;
    assert excerpts[0..] == excerpts;
    while i < |excerpts|
      invariant 0 <= i <= |excerpts|
      invariant text + ExcerptLines(excerpts[i..]) == text0 + ExcerptLines(excerpts)
    {
      assert excerpts[i..][0] == excerpts[i] && excerpts[i..][1..] == excerpts[i + 1..];
      Associate(text, ExcerptLine(excerpts[i]), ExcerptLines(excerpts[i + 1..]));
      text := text + ExcerptLine(excerpts[i]);
      i := i + 1;
    }
    assert text + "" == text;
  }

  /** The list of sources, or nothing when there are none. */
  method FormatSources(sources: seq<Source>) returns (text: Option<string>)
    ensures text == if sources == [] then None else Some(HEADER + Entries(1, sources))
    ensures sources != [] ==> IsSourceList(sources, text.value)
  {
    ListIsSourceList(sources);
    if sources == [] {
      return None;
    }
    var formatted := HEADER;
    var index := 0;
    assert sources[0..] == sources;
    while index < |sources|
      invariant 0 <= index <= |sources|
      invariant formatted + Entries(index + 1, sources[index..]) == HEADER + Entries(1, sources)
    {
      var s := sources[index];
      assert sources[index..][0] == s && sources[index..][1..] == sources[index + 1..];
      Associate(formatted, Entry(index + 1, s), Entries(index + 2, sources[index + 1..]));
      Associate(formatted, Heading(index + 1, s), ExcerptLines(s.excerpts));
      formatted := PrintExcerpts(s.excerpts, formatted + Heading(index + 1, s));
      index := index + 1;
    }
    assert formatted + "" == formatted;
    text := Some(formatted);
  }

  lemma NothingCitedIff(host: HostOf, cs: seq<Citation>)
    ensures Grouped(host, cs) == [] <==> cs == []
  {
    DistinctMembers(Uris(cs));
    if cs != [] {
      assert cs[|cs| - 1].uri in Uris(cs);
    }
  }

  /** `_formatGroundingMetadata`: no list exactly when no source with a uri is cited; otherwise the
      group-by of the citations, numbered from 1. */
  method FormatGroundingMetadata(host: HostOf, chunks: seq<Chunk>, supports: seq<Support>) returns (ok: bool, text: Option<string>)
    ensures ok <==> !HasBadUri(host, Citations(chunks, supports))
    ensures ok ==> (text.None? <==> Citations(chunks, supports) == [])
    ensures ok && text.Some? ==> IsSourceList(Grouped(host, Citations(chunks, supports)), text.value)
  {
    var sources;
    ok, sources := CollectSources(host, chunks, supports);
    text := FormatSources(sources);
    NothingCitedIff(host, Citations(chunks, supports));
  }
}
