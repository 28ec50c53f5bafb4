/** The outbounds of a connection check: tags are completed, one outbound is selected, and what it chains to is kept. */
module Outbounds {
  import opened Wrappers
  import opened TagNames

  datatype TagField = Absent | NotAString | Tag(name: string)

  /** What the composition reads of an outbound; proxy and dialer are the tags it chains to. */
  datatype Outbound = Outbound(tag: TagField, protocol: string, proxy: Option<string>, dialer: Option<string>)

  datatype Item = NotAMapping | Mapping(outbound: Outbound)

  datatype ConfigError = ConfigInvalid | Unsupported

  const SUPPORTED: set<string> := {"vless", "freedom", "blackhole", "dns"}

  const PROBER_INBOUND_TAG := "xray-e2e-prober-socks"

  // ---- Tags ------------------------------------------------------------------------------------------

  function Base(index: nat): string {
    "xray-e2e-prober-outbound-" + Digits(index)
  }

  /** The explicit tags of the first n items. */
  function Explicit(raw: seq<Item>, n: nat): set<string>
    requires n <= |raw|
  {
    if n == 0 then {}
    else
      var item := raw[n - 1];
      Explicit(raw, n - 1) + if item.Mapping? && item.outbound.tag.Tag? then {item.outbound.tag.name} else {}
  }

  predicate TagOk(raw: seq<Item>, i: nat)
    requires i < |raw|
  {
    && raw[i].Mapping?
    && var tag := raw[i].outbound.tag;
       tag.Absent? || (tag.Tag? && tag.name != [] && tag.name !in Explicit(raw, i))
  }

  predicate ProtocolOk(raw: seq<Item>, i: nat)
    requires i < |raw|
  {
    raw[i].Mapping? && raw[i].outbound.protocol in SUPPORTED
  }

  ghost predicate TagsOk(raw: seq<Item>) {
    forall i :: 0 <= i < |raw| ==> TagOk(raw, i)
  }

  ghost predicate ProtocolsOk(raw: seq<Item>) {
    forall i :: 0 <= i < |raw| ==> ProtocolOk(raw, i)
  }

  /** The tags of the first n outbounds. */
  function TagsOf(outbounds: seq<Outbound>, n: nat): set<string>
    requires n <= |outbounds|
  {
    if n == 0 then {}
    else TagsOf(outbounds, n - 1) + if outbounds[n - 1].tag.Tag? then {outbounds[n - 1].tag.name} else {}
  }

  /** What an item becomes: itself, or itself with the first free numbered tag. */
  ghost predicate Completes(raw: seq<Item>, i: nat, before: seq<Outbound>, o: Outbound, synthesize: bool)
    requires i < |raw| && |before| == i
  {
    if raw[i].NotAMapping? then false
    else if raw[i].outbound.tag.Absent? && synthesize then
      && o.tag.Tag?
      && IsFirstFree(o.tag.name, Base(i), Explicit(raw, |raw|) + TagsOf(before, i))
      && o == raw[i].outbound.(tag := o.tag)
    else o == raw[i].outbound
  }

  /** The items so far, in order, completed. */
  ghost predicate Completed(raw: seq<Item>, done: seq<Outbound>, synthesize: bool) {
    |done| <= |raw| && forall i :: 0 <= i < |done| ==> Completes(raw, i, done[..i], done[i], synthesize)
  }

  method CollectTags(raw: seq<Item>) returns (r: Result<set<string>, ConfigError>)
    ensures r.Ok? <==> TagsOk(raw)
    ensures r.Ok? ==> r.value == Explicit(raw, |raw|)
    ensures r.Raise? ==> r.error == ConfigInvalid
  {
    var tags: set<string> := {};
    for i := 0 to |raw|
      invariant tags == Explicit(raw, i)
      invariant forall j :: 0 <= j < i ==> TagOk(raw, j)
    {
      if raw[i].NotAMapping? {
        assert !TagOk(raw, i);
        return Raise(ConfigInvalid);
      }
      var tag := raw[i].outbound.tag;
      if !tag.Absent? {
        if tag.NotAString? || tag.name == [] || tag.name in tags {
          assert !TagOk(raw, i);
          return Raise(ConfigInvalid);
        }
        tags := tags + {tag.name};
      }
    }
    r := Ok(tags);
  }

  method Normalize(raw: Option<seq<Item>>, synthesize: bool) returns (r: Result<seq<Outbound>, ConfigError>)
    ensures r.Ok? <==> raw.Some? && raw.value != [] && TagsOk(raw.value) && ProtocolsOk(raw.value)
    ensures r == Raise(Unsupported) <==> raw.Some? && raw.value != [] && TagsOk(raw.value) && !ProtocolsOk(raw.value)
    ensures r.Ok? ==> |r.value| == |raw.value| && Completed(raw.value, r.value, synthesize)
  {
    if raw.None? || raw.value == [] {
      return Raise(ConfigInvalid);
    }
    var collected := CollectTags(raw.value);
    if collected.Raise? {
      return Raise(collected.error);
    }
    r := CompleteAll(raw.value, collected.value, synthesize);
  }

  method CompleteAll(items: seq<Item>, explicit: set<string>, synthesize: bool)
    returns (r: Result<seq<Outbound>, ConfigError>)
    requires TagsOk(items) && explicit == Explicit(items, |items|)
    ensures r.Ok? <==> ProtocolsOk(items)
    ensures r.Raise? ==> r.error == Unsupported
    ensures r.Ok? ==> |r.value| == |items| && Completed(items, r.value, synthesize)
  {
    var tags, result: seq<Outbound> := explicit, [];
    for i := 0 to |items|
      invariant |result| == i && Completed(items, result, synthesize)
      invariant tags == explicit + TagsOf(result, i)
      invariant forall j :: 0 <= j < i ==> ProtocolOk(items, j)
    {
      assert TagOk(items, i);
      if items[i].outbound.protocol !in SUPPORTED {
        assert !ProtocolOk(items, i);
        return Raise(Unsupported);
      }
      var outbound;
      outbound, tags := Complete(items, i, result, tags, synthesize);
      CompletedOneMore(items, result, outbound, synthesize);
      result := result + [outbound];
    }
    r := Ok(result);
  }

  /** One outbound, with a free tag if it has none and is to get one. */
  method Complete(items: seq<Item>, i: nat, ghost earlier: seq<Outbound>, tags: set<string>, synthesize: bool)
    returns (o: Outbound, taken: set<string>)
    requires i < |items| && |earlier| == i && TagOk(items, i)
    requires tags == Explicit(items, |items|) + TagsOf(earlier, i)
    ensures Completes(items, i, earlier, o, synthesize)
    ensures taken == tags + if o.tag.Tag? then {o.tag.name} else {}
  {
    o, taken := items[i].outbound, tags;
    if o.tag.Absent? && synthesize {
      var tag := FirstFree(Base(i), tags);
      o := o.(tag := Tag(tag));
      taken := tags + {tag};
    } else {
      ExplicitContains(items, i);
    }
  }

  lemma CompletedOneMore(raw: seq<Item>, done: seq<Outbound>, o: Outbound, synthesize: bool)
    requires |done| < |raw| && Completed(raw, done, synthesize) && Completes(raw, |done|, done, o, synthesize)
    ensures Completed(raw, done + [o], synthesize)
    ensures TagsOf(done + [o], |done| + 1) == TagsOf(done, |done|) + if o.tag.Tag? then {o.tag.name} else {}
  {
    var after := done + [o];
    assert after[..|done|] == done;
    TagsOfPrefix(after, done, |done|);
    assert forall j :: 0 <= j < |done| ==> after[..j] == done[..j];
  }

  lemma {:induction false} TagsOfPrefix(a: seq<Outbound>, b: seq<Outbound>, n: nat)
    requires n <= |a| && n <= |b| && a[..n] == b[..n]
    ensures TagsOf(a, n) == TagsOf(b, n)
  {
    if n > 0 {
      assert a[..n - 1] == a[..n][..n - 1] == b[..n][..n - 1] == b[..n - 1];
      assert a[n - 1] == a[..n][n - 1] == b[..n][n - 1] == b[n - 1];
      TagsOfPrefix(a, b, n - 1);
    }
  }

  lemma {:induction false} ExplicitContains(raw: seq<Item>, i: nat)
    requires i < |raw|
    ensures raw[i].Mapping? && raw[i].outbound.tag.Tag? ==> raw[i].outbound.tag.name in Explicit(raw, |raw|)
  {
    ExplicitGrows(raw, i + 1, |raw|);
  }

  lemma {:induction false} ExplicitGrows(raw: seq<Item>, m: nat, n: nat)
    requires m <= n <= |raw|
    ensures Explicit(raw, m) <= Explicit(raw, n)
  {
    if m < n {
      ExplicitGrows(raw, m, n - 1);
    }
  }

  lemma {:induction false} TagsOfContains(outbounds: seq<Outbound>, i: nat, n: nat)
    requires i < n <= |outbounds| && outbounds[i].tag.Tag?
    ensures outbounds[i].tag.name in TagsOf(outbounds, n)
  {
    if i < n - 1 {
      TagsOfContains(outbounds, i, n - 1);
    }
  }

  ghost predicate AllTagged(outbounds: seq<Outbound>) {
    forall i :: 0 <= i < |outbounds| ==> outbounds[i].tag.Tag? && outbounds[i].tag.name != []
  }

  ghost predicate DistinctTags(outbounds: seq<Outbound>) {
    forall i, j :: 0 <= i < j < |outbounds| ==> outbounds[i].tag.Tag? ==> outbounds[i].tag != outbounds[j].tag
  }

  lemma NormalizedTagsDiffer(raw: seq<Item>, out: seq<Outbound>, synthesize: bool, i: nat, j: nat)
    requires TagsOk(raw) && |out| == |raw| && i < j < |raw| && out[i].tag.Tag?
    requires Completed(raw, out, synthesize)
    ensures out[i].tag != out[j].tag
  {
    assert TagOk(raw, i) && TagOk(raw, j);
    assert Completes(raw, i, out[..i], out[i], synthesize) && Completes(raw, j, out[..j], out[j], synthesize);
    if raw[j].outbound.tag.Absent? {
      TagsOfContains(out[..j], i, j);
      assert out[..j][i] == out[i];
    } else if raw[i].outbound.tag.Absent? {
      ExplicitContains(raw, j);
    } else {
      ExplicitGrows(raw, i + 1, j);
    }
  }

  /** Completed tags are all there and all different, and an explicit one is never touched, wherever it stands. */
  lemma NormalizedTagsAreDistinct(raw: seq<Item>, out: seq<Outbound>, synthesize: bool)
    requires TagsOk(raw) && |out| == |raw|
    requires Completed(raw, out, synthesize)
    ensures DistinctTags(out) && (synthesize ==> AllTagged(out))
    ensures forall i :: 0 <= i < |raw| ==> raw[i].Mapping? && (raw[i].outbound.tag.Tag? ==> out[i] == raw[i].outbound)
  {
    forall i | 0 <= i < |out|
      ensures raw[i].Mapping? && (raw[i].outbound.tag.Tag? ==> out[i] == raw[i].outbound)
      ensures synthesize ==> out[i].tag.Tag? && out[i].tag.name != []
    {
      assert TagOk(raw, i) && Completes(raw, i, out[..i], out[i], synthesize);
      if synthesize && raw[i].outbound.tag.Absent? {
        var k: nat :| out[i].tag.name == Candidate(Base(i), k);
        assert |Candidate(Base(i), k)| >= |Base(i)| > 0;
      }
    }
    forall i, j | 0 <= i < j < |out| && out[i].tag.Tag?
      ensures out[i].tag != out[j].tag
    {
      NormalizedTagsDiffer(raw, out, synthesize, i, j);
    }
  }

  // ---- What these definitions come to, on the fields --------------------------------------------------

  ghost predicate HasTag(item: Item, name: string) {
    item.Mapping? && item.outbound.tag == Tag(name)
  }

  /** An explicit tag is a string, not empty, and no earlier item has it. */
  ghost predicate GoodTag(raw: seq<Item>, i: nat)
    requires i < |raw|
  {
    && raw[i].Mapping? && !raw[i].outbound.tag.NotAString?
    && (raw[i].outbound.tag.Tag? ==>
          && raw[i].outbound.tag.name != ""
          && forall j :: 0 <= j < i ==> !HasTag(raw[j], raw[i].outbound.tag.name))
  }

  lemma TagsOkMeans(raw: seq<Item>)
    ensures TagsOk(raw) <==> forall i :: 0 <= i < |raw| ==> GoodTag(raw, i)
  {
    forall i | 0 <= i < |raw|
      ensures TagOk(raw, i) <==> GoodTag(raw, i)
    {
      if raw[i].Mapping? && raw[i].outbound.tag.Tag? {
        ExplicitMeans(raw, i, raw[i].outbound.tag.name);
      }
    }
  }

  lemma {:induction false} ExplicitMeans(raw: seq<Item>, n: nat, name: string)
    requires n <= |raw|
    ensures name in Explicit(raw, n) <==> exists j :: 0 <= j < n && HasTag(raw[j], name)
  {
    if n > 0 {
      ExplicitMeans(raw, n - 1, name);
    }
  }

  lemma {:induction false} TagsOfMeans(outbounds: seq<Outbound>, n: nat, name: string)
    requires n <= |outbounds|
    ensures name in TagsOf(outbounds, n) <==> exists j :: 0 <= j < n && outbounds[j].tag == Tag(name)
  {
    if n > 0 {
      TagsOfMeans(outbounds, n - 1, name);
    }
  }

  predicate KnownProtocol(p: string) {
    p == "vless" || p == "freedom" || p == "blackhole" || p == "dns"
  }

  lemma ProtocolsOkMeans(raw: seq<Item>)
    ensures ProtocolsOk(raw)
       <==> forall i :: 0 <= i < |raw| ==> raw[i].Mapping? && KnownProtocol(raw[i].outbound.protocol)
  {
    forall i | 0 <= i < |raw|
      ensures ProtocolOk(raw, i) <==> raw[i].Mapping? && KnownProtocol(raw[i].outbound.protocol)
    {
    }
  }

  /** The names an untagged outbound can get, in the order they are tried. */
  function Numbered(base: string, k: nat): string {
    base + if k == 0 then "" else "-" + Digits(k)
  }

  /** An explicit tag, wherever it stands, or one that an earlier outbound got. */
  ghost predicate Taken(raw: seq<Item>, out: seq<Outbound>, i: nat, name: string) {
    || (exists j :: 0 <= j < |raw| && HasTag(raw[j], name))
    || (exists j :: 0 <= j < i && j < |out| && out[j].tag == Tag(name))
  }

  ghost predicate FirstNotTaken(raw: seq<Item>, out: seq<Outbound>, i: nat, base: string, k: nat)
    requires i < |out|
  {
    && out[i].tag == Tag(Numbered(base, k)) && !Taken(raw, out, i, Numbered(base, k))
    && forall j: nat :: j < k ==> Taken(raw, out, i, Numbered(base, j))
  }

  /** What becomes of one item: itself, or itself with the first numbered name that is not taken. */
  lemma CompletionMeans(raw: seq<Item>, out: seq<Outbound>, i: nat)
    requires i < |out| && Completed(raw, out, true)
    ensures raw[i].Mapping? && (!raw[i].outbound.tag.Absent? ==> out[i] == raw[i].outbound)
    ensures raw[i].outbound.tag.Absent? ==>
              && out[i].protocol == raw[i].outbound.protocol
              && out[i].proxy == raw[i].outbound.proxy && out[i].dialer == raw[i].outbound.dialer
              && exists k: nat :: FirstNotTaken(raw, out, i, "xray-e2e-prober-outbound-" + Digits(i), k)
  {
    assert Completes(raw, i, out[..i], out[i], true);
    if raw[i].outbound.tag.Absent? {
      var base, used := "xray-e2e-prober-outbound-" + Digits(i), Explicit(raw, |raw|) + TagsOf(out[..i], i);
      forall name
        ensures name in used <==> Taken(raw, out, i, name)
      {
        UsedAreTaken(raw, out, i, name);
      }
      assert forall k: nat :: Candidate(base, k) == Numbered(base, k);
      var k: nat :| out[i].tag.name == Candidate(base, k) && forall j: nat :: j < k ==> Candidate(base, j) in used;
      assert FirstNotTaken(raw, out, i, base, k);
    }
  }

  lemma UsedAreTaken(raw: seq<Item>, out: seq<Outbound>, i: nat, name: string)
    requires i <= |out|
    ensures name in Explicit(raw, |raw|) + TagsOf(out[..i], i) <==> Taken(raw, out, i, name)
  {
    ExplicitMeans(raw, |raw|, name);
    TagsOfMeans(out[..i], i, name);
    assert forall j :: 0 <= j < i ==> out[..i][j] == out[j];
  }

  // ---- Selection and dependency closure --------------------------------------------------------------

  /** The requested tag decides, or, without a request, the protocol. */
  predicate Matches(o: Outbound, requested: Option<string>) {
    if requested.Some? && requested.value != [] then o.tag == Tag(requested.value) else o.protocol == "vless"
  }

  function Matching(outbounds: seq<Outbound>, requested: Option<string>): seq<Outbound> {
    if outbounds == [] then []
    else
      var last := outbounds[|outbounds| - 1];
      Matching(outbounds[..|outbounds| - 1], requested) + if Matches(last, requested) then [last] else []
  }

  function Select(outbounds: seq<Outbound>, requested: Option<string>): Result<Outbound, ConfigError> {
    var matches := Matching(outbounds, requested);
    if |matches| != 1 then Raise(if requested.Some? && requested.value != [] then ConfigInvalid else Unsupported)
    else if matches[0].protocol != "vless" then Raise(Unsupported)
    else Ok(matches[0])
  }

  ghost predicate OnlyMatch(outbounds: seq<Outbound>, requested: Option<string>, i: nat) {
    i < |outbounds| && forall j :: 0 <= j < |outbounds| ==> (Matches(outbounds[j], requested) <==> j == i)
  }

  lemma {:induction false} MatchingIsTheOnly(outbounds: seq<Outbound>, requested: Option<string>)
    ensures Matching(outbounds, requested) == []
            <==> forall j :: 0 <= j < |outbounds| ==> !Matches(outbounds[j], requested)
    ensures |Matching(outbounds, requested)| == 1 <==> exists i: nat :: OnlyMatch(outbounds, requested, i)
    ensures forall i: nat :: OnlyMatch(outbounds, requested, i) ==> Matching(outbounds, requested) == [outbounds[i]]
  {
    if outbounds != [] {
      var n := |outbounds| - 1;
      var rest := outbounds[..n];
      MatchingIsTheOnly(rest, requested);
      if Matches(outbounds[n], requested) {
        LastMatches(outbounds, requested);
      } else {
        LastDoesNot(outbounds, requested);
      }
    }
  }

  lemma LastMatches(outbounds: seq<Outbound>, requested: Option<string>)
    requires outbounds != [] && Matches(outbounds[|outbounds| - 1], requested)
    ensures var n := |outbounds| - 1;
            if exists j :: 0 <= j < n && Matches(outbounds[..n][j], requested)
            then forall i: nat :: !OnlyMatch(outbounds, requested, i)
            else OnlyMatch(outbounds, requested, n) && forall i: nat :: OnlyMatch(outbounds, requested, i) ==> i == n
  {
    var n := |outbounds| - 1;
    if j :| 0 <= j < n && Matches(outbounds[..n][j], requested) {
      assert outbounds[..n][j] == outbounds[j];
      assert forall i: nat :: OnlyMatch(outbounds, requested, i) ==> i == n && i == j;
    } else {
      assert forall j :: 0 <= j < n ==> outbounds[j] == outbounds[..n][j];
    }
  }

  lemma LastDoesNot(outbounds: seq<Outbound>, requested: Option<string>)
    requires outbounds != [] && !Matches(outbounds[|outbounds| - 1], requested)
    ensures var n := |outbounds| - 1;
            forall i: nat :: OnlyMatch(outbounds, requested, i) <==> OnlyMatch(outbounds[..n], requested, i)
  {
    var n := |outbounds| - 1;
    assert forall j :: 0 <= j < n ==> outbounds[..n][j] == outbounds[j];
  }

  /** Selection succeeds exactly if one outbound alone matches and it speaks VLESS, and then it is that one. */
  lemma SelectionIsUnique(outbounds: seq<Outbound>, requested: Option<string>)
    ensures Select(outbounds, requested).Ok?
            <==> exists i: nat :: OnlyMatch(outbounds, requested, i) && outbounds[i].protocol == "vless"
    ensures forall i: nat :: OnlyMatch(outbounds, requested, i) && outbounds[i].protocol == "vless" ==>
              Select(outbounds, requested) == Ok(outbounds[i])
  {
    MatchingIsTheOnly(outbounds, requested);
  }

  /** With a requested tag the outbounds that carry it match, otherwise the VLESS outbounds. */
  lemma MatchesMeans(o: Outbound, requested: Option<string>)
    ensures requested == None || requested == Some("") ==> (Matches(o, requested) <==> o.protocol == "vless")
    ensures forall t :: requested == Some(t) && t != "" ==> (Matches(o, requested) <==> o.tag == Tag(t))
  {
  }

  /** Why nothing is selected: the requested tag is not there once, or there is not one VLESS outbound to choose. */
  lemma SelectionErrors(outbounds: seq<Outbound>, requested: Option<string>)
    ensures Select(outbounds, requested) == Raise(ConfigInvalid)
       <==> requested != None && requested != Some("") && forall i: nat :: !OnlyMatch(outbounds, requested, i)
  {
    MatchingIsTheOnly(outbounds, requested);
  }

  /** The tags an outbound chains to. */
  function Dependencies(o: Outbound): set<string> {
    (if o.proxy.Some? then {o.proxy.value} else {}) + (if o.dialer.Some? then {o.dialer.value} else {})
  }

  ghost predicate Names(outbounds: seq<Outbound>, tag: string) {
    exists i :: 0 <= i < |outbounds| && outbounds[i].tag == Tag(tag)
  }

  /** Some outbound has the tag as its proxy or its dialer. */
  ghost predicate IsNamed(outbounds: seq<Outbound>, tag: string) {
    exists i :: 0 <= i < |outbounds| && (outbounds[i].proxy == Some(tag) || outbounds[i].dialer == Some(tag))
  }

  /** One outbound chains to another tag. */
  ghost predicate ChainsTo(outbounds: seq<Outbound>, a: string, b: string) {
    exists i :: 0 <= i < |outbounds| && outbounds[i].tag == Tag(a) && b in Dependencies(outbounds[i])
  }

  /** Chaining is naming a tag as the proxy or as the dialer. */
  lemma ChainsToMeans(outbounds: seq<Outbound>, a: string, b: string)
    ensures ChainsTo(outbounds, a, b)
       <==> exists o :: o in outbounds && o.tag == Tag(a) && (o.proxy == Some(b) || o.dialer == Some(b))
  {
    if o :| o in outbounds && o.tag == Tag(a) && (o.proxy == Some(b) || o.dialer == Some(b)) {
      var i :| 0 <= i < |outbounds| && outbounds[i] == o;
      assert outbounds[i].tag == Tag(a) && b in Dependencies(outbounds[i]);
    }
  }

  ghost predicate IsChain(outbounds: seq<Outbound>, chain: seq<string>) {
    chain != [] && forall i :: 0 <= i < |chain| - 1 ==> ChainsTo(outbounds, chain[i], chain[i + 1])
  }

  /** A chain of dependencies leads from one tag to another. */
  ghost predicate Reaches(outbounds: seq<Outbound>, a: string, b: string) {
    exists chain :: IsChain(outbounds, chain) && chain[0] == a && chain[|chain| - 1] == b
  }

  lemma ReachesItself(outbounds: seq<Outbound>, a: string)
    ensures Reaches(outbounds, a, a)
  {
    assert IsChain(outbounds, [a]) && [a][0] == a && [a][|[a]| - 1] == a;
  }

  lemma ReachesFurther(outbounds: seq<Outbound>, a: string, b: string, c: string)
    requires Reaches(outbounds, a, b) && ChainsTo(outbounds, b, c)
    ensures Reaches(outbounds, a, c)
  {
    var chain :| IsChain(outbounds, chain) && chain[0] == a && chain[|chain| - 1] == b;
    var longer := chain + [c];
    assert forall i :: 0 <= i < |longer| - 1 ==> ChainsTo(outbounds, longer[i], longer[i + 1]);
    assert IsChain(outbounds, longer) && longer[0] == a && longer[|longer| - 1] == c;
  }

  /** A set of tags that chaining does not leave holds everything reachable from it. */
  lemma {:induction false} ClosedHoldsChain(outbounds: seq<Outbound>, needed: set<string>, chain: seq<string>, n: nat)
    requires IsChain(outbounds, chain) && chain[0] in needed && n < |chain|
    requires forall a, b :: a in needed && ChainsTo(outbounds, a, b) ==> b in needed
    ensures chain[n] in needed
  {
    if n > 0 {
      ClosedHoldsChain(outbounds, needed, chain, n - 1);
      assert ChainsTo(outbounds, chain[n - 1], chain[n - 1 + 1]);
    }
  }

  /** The outbounds with a needed tag, in their order. */
  function Kept(outbounds: seq<Outbound>, needed: set<string>): seq<Outbound> {
    if outbounds == [] then []
    else
      var last := outbounds[|outbounds| - 1];
      Kept(outbounds[..|outbounds| - 1], needed) + if last.tag.Tag? && last.tag.name in needed then [last] else []
  }

  lemma {:induction false} KeptAreTheNeeded(outbounds: seq<Outbound>, needed: set<string>)
    ensures forall o :: o in Kept(outbounds, needed) <==> o in outbounds && o.tag.Tag? && o.tag.name in needed
  {
    if outbounds != [] {
      var n := |outbounds| - 1;
      KeptAreTheNeeded(outbounds[..n], needed);
      assert outbounds == outbounds[..n] + [outbounds[n]];
    }
  }

  // ---- The worklist ----------------------------------------------------------------------------------

  ghost predicate Indexes(byTag: map<string, Outbound>, outbounds: seq<Outbound>) {
    && (forall t :: t in byTag <==> Names(outbounds, t))
    && (forall a, b :: a in byTag ==> (ChainsTo(outbounds, a, b) <==> b in Dependencies(byTag[a])))
  }

  method IndexByTag(outbounds: seq<Outbound>) returns (byTag: map<string, Outbound>)
    requires AllTagged(outbounds) && DistinctTags(outbounds)
    ensures Indexes(byTag, outbounds)
  {
    byTag := map[];
    for i := 0 to |outbounds|
      invariant forall t :: t in byTag <==> exists j :: 0 <= j < i && outbounds[j].tag == Tag(t)
      invariant forall j :: 0 <= j < i ==>
                  outbounds[j].tag.name in byTag && byTag[outbounds[j].tag.name] == outbounds[j]
    {
      byTag := byTag[outbounds[i].tag.name := outbounds[i]];
    }
  }

  /** Queue the dependencies of one outbound that are new; missing tells whether one has no outbound. */
  method Visit(byTag: map<string, Outbound>, dependencies: set<string>, needed: set<string>, pending: seq<string>)
    returns (missing: bool, needed': set<string>, pending': seq<string>)
    ensures missing <==> !(dependencies <= byTag.Keys)
    ensures !missing ==> needed' == needed + dependencies
    ensures !missing ==> pending <= pending'
    ensures !missing ==> forall t :: t in pending' <==> t in pending || (t in dependencies && t !in needed)
    ensures !missing && needed' == needed ==> pending' == pending
  {
    missing, needed', pending' := false, needed, pending;
    var todo := dependencies;
    while todo != {}
      invariant todo <= dependencies && dependencies - todo <= byTag.Keys
      invariant needed' == needed + (dependencies - todo)
      invariant pending <= pending'
      invariant forall t :: t in pending' <==> t in pending || (t in dependencies - todo && t !in needed)
      invariant needed' == needed ==> pending' == pending
    {
      var dependency :| dependency in todo;
      todo := todo - {dependency};
      if dependency !in byTag {
        missing := true;
        return;
      }
      if dependency !in needed' {
        needed' := needed' + {dependency};
        pending' := pending' + [dependency];
      }
    }
  }

  ghost predicate Reachable(outbounds: seq<Outbound>, selected: string, needed: set<string>) {
    forall t :: t in needed <==> Reaches(outbounds, selected, t)
  }

  /**
    The worklist keeps exactly what the selected outbound reaches, in order, and fails exactly if
    something it reaches is missing.
   */
  method ConnectionOutbounds(outbounds: seq<Outbound>, selected: string) returns (r: Result<seq<Outbound>, ConfigError>)
    requires AllTagged(outbounds) && DistinctTags(outbounds) && Names(outbounds, selected)
    ensures r.Ok? <==> forall t :: Reaches(outbounds, selected, t) ==> Names(outbounds, t)
    ensures r.Ok? ==> exists needed :: Reachable(outbounds, selected, needed) && r.value == Kept(outbounds, needed)
    ensures r.Raise? ==> r.error == ConfigInvalid
  {
    var byTag := IndexByTag(outbounds);
    var needed, pending := {selected}, [selected];
    ReachesItself(outbounds, selected);
    while pending != []
      invariant selected in needed && needed <= byTag.Keys
      invariant forall t :: t in pending ==> t in needed
      invariant forall t :: t in needed ==> Reaches(outbounds, selected, t)
      invariant forall a, b :: a in needed && a !in pending && ChainsTo(outbounds, a, b) ==> b in needed
      decreases byTag.Keys - needed, |pending|
    {
      var tag := pending[|pending| - 1];
      pending := pending[..|pending| - 1];
      forall t | t in Dependencies(byTag[tag])
        ensures ChainsTo(outbounds, tag, t) && Reaches(outbounds, selected, t)
      {
        ReachesFurther(outbounds, selected, tag, t);
      }
      var missing, needed', pending' := Visit(byTag, Dependencies(byTag[tag]), needed, pending);
      if missing {
        return Raise(ConfigInvalid);
      }
      needed, pending := needed', pending';
    }
    ClosedIsReachable(outbounds, selected, needed);
    r := Ok(Kept(outbounds, needed));
  }

  lemma ClosedIsReachable(outbounds: seq<Outbound>, selected: string, needed: set<string>)
    requires selected in needed
    requires forall t :: t in needed ==> Reaches(outbounds, selected, t)
    requires forall a, b :: a in needed && ChainsTo(outbounds, a, b) ==> b in needed
    ensures Reachable(outbounds, selected, needed)
  {
    forall t | Reaches(outbounds, selected, t)
      ensures t in needed
    {
      var chain :| IsChain(outbounds, chain) && chain[0] == selected && chain[|chain| - 1] == t;
      ClosedHoldsChain(outbounds, needed, chain, |chain| - 1);
    }
  }

  // ---- Composition -----------------------------------------------------------------------------------

  lemma {:induction false} ChainSurvives(outbounds: seq<Outbound>, needed: set<string>, chain: seq<string>)
    requires IsChain(outbounds, chain) && Reachable(outbounds, chain[0], needed)
    ensures IsChain(Kept(outbounds, needed), chain)
  {
    var kept := Kept(outbounds, needed);
    ReachesItself(outbounds, chain[0]);
    forall a, b | a in needed && ChainsTo(outbounds, a, b)
      ensures b in needed
    {
      ReachesFurther(outbounds, chain[0], a, b);
    }
    forall i | 0 <= i < |chain| - 1
      ensures ChainsTo(kept, chain[i], chain[i + 1])
    {
      ClosedHoldsChain(outbounds, needed, chain, i);
      assert ChainsTo(outbounds, chain[i], chain[i + 1]);
      KeptAreTheNeeded(outbounds, needed);
      var j :| 0 <= j < |outbounds| && outbounds[j].tag == Tag(chain[i]) && chain[i + 1] in Dependencies(outbounds[j]);
      assert outbounds[j] in kept;
    }
  }

  /** The kept outbounds are a closed configuration of their own. */
  lemma KeptIsSelfContained(outbounds: seq<Outbound>, selected: string, needed: set<string>)
    requires Reachable(outbounds, selected, needed)
    requires forall t :: Reaches(outbounds, selected, t) ==> Names(outbounds, t)
    ensures var kept := Kept(outbounds, needed);
            && (forall o, t :: o in kept && t in Dependencies(o) ==> Names(kept, t))
            && (forall o :: o in kept ==> o.tag.Tag? && Reaches(kept, selected, o.tag.name))
  {
    var kept := Kept(outbounds, needed);
    KeptAreTheNeeded(outbounds, needed);
    forall t | t in needed
      ensures Names(kept, t) && Reaches(kept, selected, t)
    {
      var i :| 0 <= i < |outbounds| && outbounds[i].tag == Tag(t);
      assert outbounds[i] in kept;
      var chain :| IsChain(outbounds, chain) && chain[0] == selected && chain[|chain| - 1] == t;
      ChainSurvives(outbounds, needed, chain);
    }
    forall o, t | o in kept && t in Dependencies(o)
      ensures Names(kept, t)
    {
      assert ChainsTo(outbounds, o.tag.name, t);
      ReachesFurther(outbounds, selected, o.tag.name, t);
    }
  }

  lemma {:induction false} KeptStaysDistinct(outbounds: seq<Outbound>, needed: set<string>)
    requires AllTagged(outbounds) && DistinctTags(outbounds)
    ensures AllTagged(Kept(outbounds, needed)) && DistinctTags(Kept(outbounds, needed))
  {
    if outbounds != [] {
      var n := |outbounds| - 1;
      var rest := Kept(outbounds[..n], needed);
      PrefixIsDistinct(outbounds, n);
      KeptStaysDistinct(outbounds[..n], needed);
      if outbounds[n].tag.name in needed {
        LastTagIsNew(outbounds, n, needed);
        LastIsNew(rest, outbounds[n]);
      } else {
        assert rest + [] == rest;
      }
    }
  }

  lemma PrefixIsDistinct(outbounds: seq<Outbound>, n: nat)
    requires AllTagged(outbounds) && DistinctTags(outbounds) && n <= |outbounds|
    ensures AllTagged(outbounds[..n]) && DistinctTags(outbounds[..n])
  {
  }

  lemma LastTagIsNew(outbounds: seq<Outbound>, n: nat, needed: set<string>)
    requires AllTagged(outbounds) && DistinctTags(outbounds) && n < |outbounds|
    ensures forall o :: o in Kept(outbounds[..n], needed) ==> o.tag != outbounds[n].tag
  {
    KeptAreTheNeeded(outbounds[..n], needed);
    forall o | o in outbounds[..n]
      ensures o.tag != outbounds[n].tag
    {
      var i :| 0 <= i < n && outbounds[..n][i] == o;
      assert outbounds[i] == o;
    }
  }

  lemma LastIsNew(front: seq<Outbound>, last: Outbound)
    requires AllTagged(front) && DistinctTags(front) && last.tag.Tag? && last.tag.name != []
    requires forall o :: o in front ==> o.tag != last.tag
    ensures AllTagged(front + [last]) && DistinctTags(front + [last])
  {
    assert forall i :: 0 <= i < |front| ==> (front + [last])[i] == front[i] && front[i] in front;
  }

  lemma KeptOnTheFields(kept: seq<Outbound>, selected: string)
    requires forall o, t :: o in kept && t in Dependencies(o) ==> Names(kept, t)
    requires forall o :: o in kept ==> o.tag.Tag? && Reaches(kept, selected, o.tag.name)
    ensures forall o :: o in kept && o.proxy != None ==> Names(kept, o.proxy.value)
    ensures forall o :: o in kept && o.dialer != None ==> Names(kept, o.dialer.value)
    ensures forall o :: o in kept && o.tag != Tag(selected) ==> IsNamed(kept, o.tag.name)
  {
    forall o | o in kept && o.proxy != None ensures Names(kept, o.proxy.value) {
      assert o.proxy.value in Dependencies(o);
    }
    forall o | o in kept && o.dialer != None ensures Names(kept, o.dialer.value) {
      assert o.dialer.value in Dependencies(o);
    }
    forall o | o in kept && o.tag != Tag(selected) ensures IsNamed(kept, o.tag.name)
    {
      var chain :| IsChain(kept, chain) && chain[0] == selected && chain[|chain| - 1] == o.tag.name;
      var n := |chain| - 2;
      assert n >= 0 && ChainsTo(kept, chain[n], chain[n + 1]);
      ChainsToMeans(kept, chain[n], chain[n + 1]);
    }
  }

  datatype Connection = Connection(selected: string, outbounds: seq<Outbound>)

  ghost predicate Normalized(raw: Option<seq<Item>>, all: seq<Outbound>) {
    && raw.Some? && raw.value != [] && TagsOk(raw.value) && ProtocolsOk(raw.value)
    && |all| == |raw.value| && Completed(raw.value, all, true)
  }

  ghost predicate Usable(all: seq<Outbound>, requested: Option<string>, i: nat) {
    && OnlyMatch(all, requested, i) && all[i].protocol == "vless" && all[i].tag.Tag?
    && forall t :: Reaches(all, all[i].tag.name, t) ==> Names(all, t)
  }

  ghost predicate HasUsable(all: seq<Outbound>, requested: Option<string>) {
    exists i: nat :: Usable(all, requested, i)
  }

  /** The condition for success: the list normalizes, to a list with a usable outbound. */
  ghost predicate Composable(raw: Option<seq<Item>>, requested: Option<string>) {
    exists all :: Normalized(raw, all) && HasUsable(all, requested)
  }

  /** A list normalizes to one list only, so that the condition is one on the input. */
  lemma NormalizedIsDetermined(raw: Option<seq<Item>>, a: seq<Outbound>, b: seq<Outbound>)
    requires Normalized(raw, a) && Normalized(raw, b)
    ensures a == b
  {
    SamePrefix(raw.value, a, b, |a|);
  }

  lemma {:induction false} SamePrefix(raw: seq<Item>, a: seq<Outbound>, b: seq<Outbound>, n: nat)
    requires n <= |a| == |b| == |raw| && Completed(raw, a, true) && Completed(raw, b, true)
    ensures a[..n] == b[..n]
  {
    if n > 0 {
      SamePrefix(raw, a, b, n - 1);
      SameCompletion(raw, n - 1, a[..n - 1], a[n - 1], b[n - 1]);
      OneMoreIsSame(a, b, n - 1);
    }
  }

  lemma OneMoreIsSame(a: seq<Outbound>, b: seq<Outbound>, n: nat)
    requires n < |a| && n < |b| && a[..n] == b[..n] && a[n] == b[n]
    ensures a[..n + 1] == b[..n + 1]
  {
    assert a[..n + 1] == a[..n] + [a[n]] && b[..n + 1] == b[..n] + [b[n]];
  }

  lemma SameCompletion(raw: seq<Item>, i: nat, earlier: seq<Outbound>, a: Outbound, b: Outbound)
    requires i < |raw| && |earlier| == i && Completes(raw, i, earlier, a, true) && Completes(raw, i, earlier, b, true)
    ensures a == b
  {
    if raw[i].outbound.tag.Absent? {
      FirstFreeIsUnique(a.tag.name, b.tag.name, Base(i), Explicit(raw, |raw|) + TagsOf(earlier, i));
    }
  }

  lemma OnlyThisList(raw: Option<seq<Item>>, requested: Option<string>, all: seq<Outbound>)
    requires Normalized(raw, all)
    ensures Composable(raw, requested) <==> HasUsable(all, requested)
  {
    if Composable(raw, requested) {
      var other :| Normalized(raw, other) && HasUsable(other, requested);
      NormalizedIsDetermined(raw, all, other);
    }
  }

  /** A reached outbound whose proxy or dialer has no outbound makes the composition fail. */
  lemma MissingDependencyFails(raw: Option<seq<Item>>, requested: Option<string>, all: seq<Outbound>, i: nat,
                               o: Outbound, t: string)
    requires Normalized(raw, all) && OnlyMatch(all, requested, i) && all[i].tag.Tag?
    requires o in all && o.tag.Tag? && Reaches(all, all[i].tag.name, o.tag.name)
    requires (o.proxy == Some(t) || o.dialer == Some(t)) && forall p :: p in all ==> p.tag != Tag(t)
    ensures !Composable(raw, requested)
  {
    ChainsToMeans(all, o.tag.name, t);
    ReachesFurther(all, all[i].tag.name, o.tag.name, t);
    OnlyThisList(raw, requested, all);
    assert !Names(all, t);
    assert forall j: nat :: OnlyMatch(all, requested, j) ==> j == i;
  }

  /** The outbound part of a connection check's configuration. */
  method BuildConnection(raw: Option<seq<Item>>, requested: Option<string>)
    returns (r: Result<Connection, ConfigError>, ghost all: seq<Outbound>)
    ensures r.Ok? <==> Composable(raw, requested)
    // What is wrong: the list, a protocol, the selection, or a dependency that is missing.
    ensures r.Raise? ==>
              r.error == if raw == None || raw == Some([]) || !TagsOk(raw.value) then ConfigInvalid
                         else if !ProtocolsOk(raw.value) then Unsupported
                         else match Select(all, requested) case Raise(e) => e case Ok(_) => ConfigInvalid
    ensures r.Ok? ==> Normalized(raw, all)
    ensures r.Ok? ==>
              exists needed :: Reachable(all, r.value.selected, needed) && r.value.outbounds == Kept(all, needed)
    ensures r.Ok? ==> exists o :: o in r.value.outbounds && o.tag == Tag(r.value.selected) && o.protocol == "vless"
    ensures r.Ok? ==> AllTagged(r.value.outbounds) && DistinctTags(r.value.outbounds)
    // Nothing dangles, and nothing is there that the selected outbound does not reach.
    ensures r.Ok? ==> forall o, t :: o in r.value.outbounds && t in Dependencies(o) ==> Names(r.value.outbounds, t)
    ensures r.Ok? ==> forall o :: o in r.value.outbounds ==>
              o.tag.Tag? && Reaches(r.value.outbounds, r.value.selected, o.tag.name)
    // The same on the fields: proxies and dialers are kept, and nothing else is.
    ensures r.Ok? ==> forall o :: o in r.value.outbounds && o.proxy != None ==>
              Names(r.value.outbounds, o.proxy.value)
    ensures r.Ok? ==> forall o :: o in r.value.outbounds && o.dialer != None ==>
              Names(r.value.outbounds, o.dialer.value)
    ensures r.Ok? ==> forall o :: o in r.value.outbounds && o.tag != Tag(r.value.selected) ==>
              IsNamed(r.value.outbounds, o.tag.name)
  {
    all := [];
    var normalized := Normalize(raw, true);
    if normalized.Raise? {
      return Raise(normalized.error), all;
    }
    all := normalized.value;
    OnlyThisList(raw, requested, all);
    NormalizedTagsAreDistinct(raw.value, all, true);
    SelectionIsUnique(normalized.value, requested);
    var selected := Select(normalized.value, requested);
    if selected.Raise? {
      return Raise(selected.error), all;
    }
    ghost var i: nat :| OnlyMatch(all, requested, i) && all[i].protocol == "vless";
    var tag := selected.value.tag.name;
    var kept := ConnectionOutbounds(normalized.value, tag);
    if kept.Raise? {
      return Raise(kept.error), all;
    }
    ghost var needed :| Reachable(all, tag, needed) && kept.value == Kept(all, needed);
    assert Usable(all, requested, i);
    KeptIsSelfContained(all, tag, needed);
    KeptStaysDistinct(all, needed);
    KeptAreTheNeeded(all, needed);
    ReachesItself(all, tag);
    r := Ok(Connection(tag, kept.value));
    KeptOnTheFields(r.value.outbounds, r.value.selected);
  }

  // ---- The managed inbound of a profile check ---------------------------------------------------------

  /** What a routing rule says under inboundTag: nothing, one tag, or a list with only some strings in it. */
  datatype References = NoReference | OneTag(tag: string) | TagList(tags: seq<Option<string>>)

  function StringsOf(items: seq<Option<string>>): set<string> {
    set i | 0 <= i < |items| && items[i].Some? :: items[i].value
  }

  function Referenced(r: References): set<string> {
    match r
    case NoReference => {}
    case OneTag(t) => {t}
    case TagList(tags) => StringsOf(tags)
  }

  ghost predicate Unused(tag: string, inbounds: seq<Option<string>>, rules: seq<References>) {
    && (forall i :: 0 <= i < |inbounds| ==> inbounds[i] != Some(tag))
    && (forall i :: 0 <= i < |rules| ==> tag !in Referenced(rules[i]))
  }

  lemma CandidatesAreNumbered(base: string, k: nat)
    ensures Candidate(base, k) == Numbered(base, k)
  {
  }

  lemma FirstFreeMeans(tag: string, base: string, used: set<string>)
    requires IsFirstFree(tag, base, used)
    ensures exists k: nat :: tag == Numbered(base, k) && forall j: nat :: j < k ==> Numbered(base, j) in used
  {
    var k: nat :| tag == Candidate(base, k) && forall j: nat :: j < k ==> Candidate(base, j) in used;
    forall j: nat {
      CandidatesAreNumbered(base, j);
    }
  }

  /** An inbound has the tag, or a rule refers to it. */
  ghost predicate InUse(tag: string, inbounds: seq<Option<string>>, rules: seq<References>) {
    || Some(tag) in inbounds
    || exists rule :: rule in rules && (rule == OneTag(tag) || (rule.TagList? && Some(tag) in rule.tags))
  }

  lemma UnusedMeans(tag: string, inbounds: seq<Option<string>>, rules: seq<References>)
    ensures Unused(tag, inbounds, rules) <==> !InUse(tag, inbounds, rules)
  {
    forall rule: References
      ensures tag in Referenced(rule) <==> rule == OneTag(tag) || (rule.TagList? && Some(tag) in rule.tags)
    {
      if rule.TagList? && Some(tag) in rule.tags {
        var i :| 0 <= i < |rule.tags| && rule.tags[i] == Some(tag);
        assert rule.tags[i].value in StringsOf(rule.tags);
      }
    }
    if !InUse(tag, inbounds, rules) {
      assert forall i :: 0 <= i < |inbounds| ==> inbounds[i] in inbounds;
      assert forall i :: 0 <= i < |rules| ==> rules[i] in rules;
    } else if Some(tag) in inbounds {
      var i :| 0 <= i < |inbounds| && inbounds[i] == Some(tag);
    } else {
      var rule :| rule in rules && (rule == OneTag(tag) || (rule.TagList? && Some(tag) in rule.tags));
      var i :| 0 <= i < |rules| && rules[i] == rule;
    }
  }

  /** The tag an originally untagged inbound gets is no inbound's and no routing rule refers to it. */
  method CollisionFreeInboundTag(inbounds: seq<Option<string>>, rules: seq<References>) returns (tag: string)
    ensures Unused(tag, inbounds, rules)
    ensures Unused(PROBER_INBOUND_TAG, inbounds, rules) ==> tag == PROBER_INBOUND_TAG
    ensures exists used :: && IsFirstFree(tag, PROBER_INBOUND_TAG, used)
                           && forall t :: t in used ==> !Unused(t, inbounds, rules)
    // The same on the fields.
    ensures Some(tag) !in inbounds
    ensures forall rule :: rule in rules ==> rule != OneTag(tag) && (rule.TagList? ==> Some(tag) !in rule.tags)
    ensures exists k: nat ::
              && tag == Numbered("xray-e2e-prober-socks", k)
              && forall j: nat :: j < k ==> InUse(Numbered("xray-e2e-prober-socks", j), inbounds, rules)
  {
    var used := StringsOf(inbounds);
    for i := 0 to |rules|
      invariant StringsOf(inbounds) <= used
      invariant forall j :: 0 <= j < i ==> Referenced(rules[j]) <= used
      invariant forall t :: t in used ==>
                  t in StringsOf(inbounds) || exists j :: 0 <= j < i && t in Referenced(rules[j])
    {
      used := used + Referenced(rules[i]);
    }
    tag := FirstFree(PROBER_INBOUND_TAG, used);
    forall i | 0 <= i < |inbounds|
      ensures inbounds[i] != Some(tag)
    {
      assert inbounds[i].Some? ==> inbounds[i].value in StringsOf(inbounds);
    }
    forall t | t in used
      ensures !Unused(t, inbounds, rules)
    {
      if t in StringsOf(inbounds) {
        var i :| 0 <= i < |inbounds| && inbounds[i] == Some(t);
      }
    }
    forall t {
      UnusedMeans(t, inbounds, rules);
    }
    FirstFreeMeans(tag, PROBER_INBOUND_TAG, used);
    if PROBER_INBOUND_TAG !in used {
      var k: nat :| && tag == Candidate(PROBER_INBOUND_TAG, k)
                    && forall j: nat :: j < k ==> Candidate(PROBER_INBOUND_TAG, j) in used;
      assert Candidate(PROBER_INBOUND_TAG, 0) == PROBER_INBOUND_TAG;
    }
  }
}
