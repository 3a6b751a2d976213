/**
  The policy engine of the GraphQL handler: splitting the `Policies` header,
  applying each policy to the decoded response body in turn, and the outcome
  of one policy (processJsonData).

  A policy is `Query.field`, which deletes `field` from the body's `data`
  object, or `Type.field`, which deletes `field` from every object held
  directly under a key named as the schema key that maps to `Type` (or in the
  array under such a key), at any depth.
 */
module Handler {
  import opened Results
  import opened Text
  import opened Documents
  import opened KeyPaths
  import opened Deletion
  import opened Redaction

  /** The errors the handler reports; `IndexOutOfRange` stands for the panic on a one-segment policy. */
  datatype Error =
    | MissingPoliciesHeader
    | NilDocument
    | EmptyPolicy
    | InvalidPolicyFormat
    | DataNotMap
    | KeyNotFoundInData(name: string)
    | NoMatchingKeys(typeName: string)
    | IndexOutOfRange

  // ---------------------------------------------------------------------------
  // splitPoliciesAndRemoveSpace
  // ---------------------------------------------------------------------------

  /** The pieces of `s` between the delimiters, each trimmed of white space. */
  function SplitPolicies(s: string, d: char): (parts: seq<string>)
    ensures |parts| == CountChar(s, d) + 1
    ensures forall i :: 0 <= i < |parts| ==> d !in parts[i]
    ensures forall i :: 0 <= i < |parts| ==> parts[i] == TrimSpace(SplitOn(s, d)[i])
  {
    var raw := SplitOn(s, d);
    var parts := seq(|raw|, i requires 0 <= i < |raw| => TrimSpace(raw[i]));
    assert forall i :: 0 <= i < |parts| ==> d !in parts[i] by {
      forall i | 0 <= i < |parts| ensures d !in parts[i] {
        TrimSpaceKeepsOut(raw[i], d);
      }
    }
    parts
  }

  /** splitPoliciesAndRemoveSpace: split, then trim every piece in place. */
  method SplitAndTrim(s: string, d: char) returns (parts: seq<string>)
    ensures parts == SplitPolicies(s, d)
  {
    var raw := SplitOn(s, d);
    ghost var want := SplitPolicies(s, d);
    var a := new string[|raw|](i requires 0 <= i < |raw| => raw[i]);
    for i := 0 to a.Length
      invariant a[..i] == want[..i]
      invariant a[i..] == raw[i..]
    {
      a[i] := TrimSpace(a[i]);
      assert a[..i + 1] == want[..i + 1];
    }
    parts := a[..];
    assert a[..a.Length] == parts;
  }

  /** Every piece comes out trimmed: splitting never yields edge white space. */
  lemma SplitPoliciesTrimmed(s: string, d: char)
    ensures forall i :: 0 <= i < |SplitPolicies(s, d)| ==> TrimSpace(SplitPolicies(s, d)[i]) == SplitPolicies(s, d)[i]
  {
    var parts := SplitPolicies(s, d);
    forall i | 0 <= i < |parts| ensures TrimSpace(parts[i]) == parts[i] {
      TrimSpaceIdempotent(SplitOn(s, d)[i]);
    }
  }

  /** Joining trimmed, delimiter-free pieces and splitting again gives the pieces back. */
  lemma SplitPoliciesJoin(parts: seq<string>, d: char)
    requires |parts| >= 1
    requires forall i :: 0 <= i < |parts| ==> d !in parts[i] && TrimSpace(parts[i]) == parts[i]
    ensures SplitPolicies(Join(parts, d), d) == parts
  {
    SplitJoin(parts, d);
  }

  /** The pieces of a collected key path are its segments, trimmed. */
  lemma KeyPathPieces(a: Addr)
    requires |a| >= 1
    requires forall i :: 0 <= i < |a| ==> SafeKey(a[i].name)
    ensures |SplitPolicies(Path(a), '.')| == |a|
    ensures forall i :: 0 <= i < |a| ==> SplitPolicies(Path(a), '.')[i] == TrimSpace(RenderSeg(a[i]))
  {
    var ss := Segments(a);
    forall i | 0 <= i < |ss| ensures '.' !in ss[i] {
      RenderSegDotFree(a[i]);
    }
    SplitJoin(ss, '.');
  }

  /** The handler's test on the last two pieces of a key path is the rule's match on the address. */
  lemma MatchesPieces(rule: Rule, a: Addr, last: string, prev: string)
    requires |a| >= 2
    requires last == TrimSpace(RenderSeg(a[|a| - 1])) && prev == TrimSpace(RenderSeg(a[|a| - 2]))
    ensures Matches(rule, a) <==> StripIndices(last) == rule.field && StripIndices(prev) == rule.owner
  {
  }

  /** What the loop body learns from splitting a collected path: one piece per segment, and the rule's test. */
  lemma PiecesOfPath(orig: map<string, Json>, a: Addr, keys: seq<string>, rule: Rule)
    requires WellKeyedRoot(orig) && Collectible(Object(orig), a)
    requires keys == SplitPolicies(Path(a), '.')
    ensures |keys| == |a|
    ensures |a| >= 2 ==>
      (Matches(rule, a) <==> StripIndices(keys[|keys| - 1]) == rule.field && StripIndices(keys[|keys| - 2]) == rule.owner)
    ensures |a| < 2 ==> !Matches(rule, a)
  {
    CollectibleSafe(Object(orig), a);
    KeyPathPieces(a);
    if |a| >= 2 {
      MatchesPieces(rule, a, keys[|keys| - 1], keys[|keys| - 2]);
    } else {
      ShortNeverMatches(rule, a);
    }
  }

  /** A single-segment path is never deleted by a type-scoped policy. */
  lemma ShortNeverMatches(rule: Rule, a: Addr)
    requires |a| <= 1
    ensures !Matches(rule, a)
  {
  }

  // ---------------------------------------------------------------------------
  // The schema keys of a type
  // ---------------------------------------------------------------------------

  /** The schema keys whose type is `typeName`. */
  function Candidates(fields: map<string, string>, typeName: string): set<string> {
    set k | k in fields && fields[k] == typeName
  }

  /** The customerKeys loop: every schema key of the type, each once, in map order. */
  method CandidateKeys(fields: map<string, string>, typeName: string) returns (keys: seq<string>)
    ensures forall k :: k in keys <==> k in fields && fields[k] == typeName
    ensures Distinct(keys)
  {
    keys := [];
    var rest := fields.Keys;
    while rest != {}
      invariant rest <= fields.Keys
      invariant forall k :: k in keys <==> k in fields && k !in rest && fields[k] == typeName
      invariant Distinct(keys)
      decreases rest
    {
      var k :| k in rest;
      if fields[k] == typeName {
        keys := keys + [k];
      }
      rest := rest - {k};
    }
  }

  // ---------------------------------------------------------------------------
  // processJsonData, as a function
  // ---------------------------------------------------------------------------

  /** A `Query.field` policy on the top-level document, after the format checks. */
  function QueryOutcome(root: map<string, Json>, ps: seq<string>): (r: Result<map<string, Json>, Error>)
    requires 1 <= |ps| <= 2
    ensures r.Ok? <==> "data" in root && root["data"].Object? && |ps| == 2 && ps[1] in root["data"].fields
    ensures r.Ok? ==>
      && r.value.Keys == root.Keys && r.value["data"].Object?
      && r.value["data"].fields == root["data"].fields - {ps[1]}
      && forall k :: k in root && k != "data" ==> r.value[k] == root[k]
  {
    if !("data" in root && root["data"].Object?) then Err(DataNotMap)
    else if |ps| < 2 then Err(IndexOutOfRange)
    else if ps[1] in root["data"].fields then Ok(root["data" := Object(root["data"].fields - {ps[1]})])
    else Err(KeyNotFoundInData(ps[0]))
  }

  /**
    The outcome of one policy on a document (None is a nil document), when
    `owner` is the schema key the handler picks for the policy's type.
   */
  function PolicyOutcome(doc: Option<map<string, Json>>, policy: string, fields: map<string, string>, owner: string)
    : (r: Result<map<string, Json>, Error>)
    ensures doc.None? ==> r == Err(NilDocument)
    ensures doc.Some? && policy == "" ==> r == Err(EmptyPolicy)
    ensures doc.Some? && policy != "" && |SplitPolicies(policy, '.')| > 2 ==> r == Err(InvalidPolicyFormat)
    ensures r.Ok? ==> doc.Some? && r.value.Keys <= doc.value.Keys
  {
    if doc.None? then Err(NilDocument)
    else if policy == "" then Err(EmptyPolicy)
    else
      var root := doc.value;
      var ps := SplitPolicies(policy, '.');
      if |ps| > 2 then Err(InvalidPolicyFormat)
      else if ps[0] == "Query" then QueryOutcome(root, ps)
      else if Candidates(fields, ps[0]) == {} then Err(NoMatchingKeys(ps[0]))
      else TypeOutcome(root, ps, owner)
  }

  /** A `Type.field` policy once the type is known to have a schema key, `owner`. */
  function TypeOutcome(root: map<string, Json>, ps: seq<string>, owner: string): (r: Result<map<string, Json>, Error>)
    requires 1 <= |ps| <= 2
    ensures r.Ok? ==> r.value.Keys <= root.Keys
    ensures |ps| == 2 ==> r.Ok?
  {
    if |ps| < 2 then (if HasNested(root) then Err(IndexOutOfRange) else Ok(root))
    else
      var out := Scrub(Object(root), Rule(owner, ps[1]), None);
      assert out.Object? && out.fields.Keys <= root.Keys by {
        ScrubWellKeyedKeys(Object(root), Rule(owner, ps[1]));
      }
      Ok(out.fields)
  }

  lemma TypeOutcomeNested(root: map<string, Json>, ps: seq<string>, owner: string)
    requires |ps| == 1 && HasNested(root)
    ensures TypeOutcome(root, ps, owner) == Err(IndexOutOfRange)
  {
  }

  lemma TypeOutcomeFlat(root: map<string, Json>, ps: seq<string>, owner: string)
    requires |ps| == 1 && !HasNested(root)
    ensures TypeOutcome(root, ps, owner) == Ok(root)
  {
  }

  lemma TypeOutcomeScrub(root: map<string, Json>, ps: seq<string>, owner: string)
    requires |ps| == 2
    ensures TypeOutcome(root, ps, owner) == Ok(Scrub(Object(root), Rule(owner, ps[1]), None).fields)
  {
  }

  lemma ScrubWellKeyedKeys(j: Json, rule: Rule)
    requires j.Object?
    ensures Scrub(j, rule, None).Object? && Scrub(j, rule, None).fields.Keys <= j.fields.Keys
  {
  }

  /** The owner the handler may pick: any schema key of the policy's type, when there is one. */
  ghost predicate OwnerOf(policy: string, fields: map<string, string>, owner: string) {
    var t := SplitPolicies(policy, '.')[0];
    Candidates(fields, t) != {} ==> owner in Candidates(fields, t)
  }

  /** A policy keeps the document's keys unambiguous, so the next policy can run on it. */
  lemma PolicyOutcomeWellKeyed(doc: Option<map<string, Json>>, policy: string, fields: map<string, string>, owner: string)
    requires doc.Some? ==> WellKeyedRoot(doc.value)
    ensures var r := PolicyOutcome(doc, policy, fields, owner); r.Ok? ==> WellKeyedRoot(r.value)
  {
    var r := PolicyOutcome(doc, policy, fields, owner);
    if r.Ok? {
      var root := doc.value;
      var ps := SplitPolicies(policy, '.');
      if ps[0] == "Query" {
        var data := root["data"];
        assert WellKeyed(data);
        assert WellKeyed(Object(data.fields - {ps[1]}));
        assert WellKeyed(Object(r.value)) by {
          forall k | k in r.value ensures SafeKey(k) && WellKeyed(r.value[k]) {
            if k != "data" {
              assert r.value[k] == root[k];
            }
          }
        }
      } else if |ps| == 2 {
        ScrubWellKeyed(Object(root), Rule(owner, ps[1]), None);
      }
    }
  }

  /**
    A type-scoped policy leaves exactly the key paths that have no deleted
    entry on their way: the rule's field is gone from under the owner
    everywhere, and every other path is still there.
   */
  lemma TypePolicySurvivors(root: map<string, Json>, policy: string, fields: map<string, string>, owner: string, a: Addr)
    requires var ps := SplitPolicies(policy, '.'); policy != "" && |ps| == 2 && ps[0] != "Query"
    requires PolicyOutcome(Some(root), policy, fields, owner).Ok?
    ensures var ps := SplitPolicies(policy, '.');
      Collectible(Object(PolicyOutcome(Some(root), policy, fields, owner).value), a) <==>
        Collectible(Object(root), a) && Spared(Rule(owner, ps[1]), None, a)
    ensures var ps := SplitPolicies(policy, '.');
      Collectible(Object(PolicyOutcome(Some(root), policy, fields, owner).value), a) ==> !Matches(Rule(owner, ps[1]), a)
  {
    var ps := SplitPolicies(policy, '.');
    var rule := Rule(owner, ps[1]);
    var out := Scrub(Object(root), rule, None);
    assert PolicyOutcome(Some(root), policy, fields, owner).value == out.fields;
    assert Object(out.fields) == out;
    ScrubSurvivors(Object(root), rule, None, a);
    if Collectible(out, a) {
      ScrubLeavesNoMatch(Object(root), rule, a);
    }
  }

  /** A `Query.field` policy succeeds once; repeating it reports the field as missing. */
  lemma QueryPolicyTwice(root: map<string, Json>, policy: string, fields: map<string, string>, owner: string)
    requires policy != "" && |SplitPolicies(policy, '.')| == 2 && SplitPolicies(policy, '.')[0] == "Query"
    requires PolicyOutcome(Some(root), policy, fields, owner).Ok?
    ensures PolicyOutcome(Some(PolicyOutcome(Some(root), policy, fields, owner).value), policy, fields, owner)
      == Err(KeyNotFoundInData("Query"))
  {
  }

  /** A one-segment type policy fails exactly when the document has a path of two or more segments. */
  lemma OneSegmentTypePolicy(root: map<string, Json>, policy: string, fields: map<string, string>, owner: string)
    requires var ps := SplitPolicies(policy, '.'); policy != "" && |ps| == 1 && ps[0] != "Query"
    requires Candidates(fields, SplitPolicies(policy, '.')[0]) != {}
    ensures PolicyOutcome(Some(root), policy, fields, owner) ==
      if exists a: Addr :: Collectible(Object(root), a) && |a| >= 2 then Err(IndexOutOfRange) else Ok(root)
  {
    HasNestedCollectible(root);
  }

  // ---------------------------------------------------------------------------
  // The driver loop in ParseGraphQLQuery
  // ---------------------------------------------------------------------------

  /**
    Apply the policies in order, stopping at the first error. With no
    policies the document comes back as it was, nil included; a nil document
    makes the first policy fail.
   */
  function RunPolicies(doc: Option<map<string, Json>>, policies: seq<string>, fields: map<string, string>, owners: seq<string>)
    : (r: Result<Option<map<string, Json>>, Error>)
    requires |owners| == |policies|
    ensures policies == [] ==> r == Ok(doc)
    ensures policies != [] && doc.None? ==> r == Err(NilDocument)
    ensures policies != [] && r.Ok? ==> r.value.Some?
    ensures r.Ok? && r.value.Some? && doc.Some? ==> r.value.value.Keys <= doc.value.Keys
    decreases |policies|
  {
    if policies == [] then Ok(doc)
    else match PolicyOutcome(doc, policies[0], fields, owners[0])
      case Err(e) => Err(e)
      case Ok(next) => RunPolicies(Some(next), policies[1..], fields, owners[1..])
  }

  /** One policy's outcome as the outcome of a run: a document that is never nil on success. */
  function Lift(outcome: Result<map<string, Json>, Error>): Result<Option<map<string, Json>>, Error> {
    match outcome
    case Err(e) => Err(e)
    case Ok(m) => Ok(Some(m))
  }

  /** Running two lists of policies is running the first, then the second on its result. */
  lemma {:induction false} RunPoliciesConcat(doc: Option<map<string, Json>>, ps: seq<string>, qs: seq<string>,
                                             fields: map<string, string>, os: seq<string>, ts: seq<string>)
    requires |os| == |ps| && |ts| == |qs|
    ensures RunPolicies(doc, ps + qs, fields, os + ts) ==
      match RunPolicies(doc, ps, fields, os)
      case Err(e) => Err(e)
      case Ok(mid) => RunPolicies(mid, qs, fields, ts)
    decreases |ps|
  {
    if ps != [] {
      assert (ps + qs)[1..] == ps[1..] + qs;
      assert (os + ts)[1..] == os[1..] + ts;
      assert (ps + qs)[0] == ps[0] && (os + ts)[0] == os[0];
      match PolicyOutcome(doc, ps[0], fields, os[0])
      case Err(_) =>
      case Ok(next) => RunPoliciesConcat(Some(next), ps[1..], qs, fields, os[1..], ts);
    } else {
      assert ps + qs == qs && os + ts == ts;
    }
  }

  /** Running a single policy is that policy's outcome. */
  lemma RunPoliciesOne(doc: Option<map<string, Json>>, policy: string, fields: map<string, string>, owner: string)
    ensures RunPolicies(doc, [policy], fields, [owner]) == Lift(PolicyOutcome(doc, policy, fields, owner))
  {
    assert [policy][1..] == [] && [owner][1..] == [];
  }

  /** Each of `owners` is an owner the handler may pick for the policy at the same position. */
  ghost predicate OwnersFit(policies: seq<string>, fields: map<string, string>, owners: seq<string>)
    decreases |owners|
  {
    && |owners| <= |policies|
    && (owners != [] ==>
         && OwnersFit(policies, fields, owners[..|owners| - 1])
         && OwnerOf(policies[|owners| - 1], fields, owners[|owners| - 1]))
  }

  lemma {:induction false} OwnersFitAll(policies: seq<string>, fields: map<string, string>, owners: seq<string>)
    requires OwnersFit(policies, fields, owners)
    ensures forall i :: 0 <= i < |owners| ==> OwnerOf(policies[i], fields, owners[i])
    decreases |owners|
  {
    if owners != [] {
      var init := owners[..|owners| - 1];
      OwnersFitAll(policies, fields, init);
      forall i | 0 <= i < |owners| ensures OwnerOf(policies[i], fields, owners[i]) {
        if i < |init| {
          assert owners[i] == init[i];
        }
      }
    }
  }

  /** One more policy: the run over the longer prefix is that policy's outcome on the document so far. */
  lemma RunPoliciesStep(start: Option<map<string, Json>>, policies: seq<string>, fields: map<string, string>,
                        owners: seq<string>, i: nat, before: Option<map<string, Json>>, owner: string)
    requires i < |policies| && |owners| == i
    requires RunPolicies(start, policies[..i], fields, owners) == Ok(before)
    ensures RunPolicies(start, policies[..i + 1], fields, owners + [owner]) == Lift(PolicyOutcome(before, policies[i], fields, owner))
  {
    PrefixSnoc(policies, i);
    RunPoliciesSnoc(start, policies[..i], policies[i], fields, owners, owner, before);
  }

  lemma PrefixSnoc<T>(s: seq<T>, i: nat)
    requires i < |s|
    ensures s[..i] + [s[i]] == s[..i + 1]
  {
  }

  lemma RunPoliciesSnoc(start: Option<map<string, Json>>, ps: seq<string>, p: string, fields: map<string, string>,
                        os: seq<string>, o: string, before: Option<map<string, Json>>)
    requires |os| == |ps|
    requires RunPolicies(start, ps, fields, os) == Ok(before)
    ensures RunPolicies(start, ps + [p], fields, os + [o]) == Lift(PolicyOutcome(before, p, fields, o))
  {
    RunPoliciesOne(before, p, fields, o);
    if ps == [] {
      assert ps + [p] == [p] && os + [o] == [o];
    } else {
      RunPoliciesConcat(start, ps, [p], fields, os, [o]);
    }
  }

  /** An empty policy in the list (a doubled or trailing comma) makes the whole run fail. */
  lemma {:induction false} RunPoliciesEmptyFails(doc: Option<map<string, Json>>, policies: seq<string>,
                                                 fields: map<string, string>, owners: seq<string>)
    requires |owners| == |policies| && "" in policies
    ensures RunPolicies(doc, policies, fields, owners).Err?
    decreases |policies|
  {
    if doc.Some? && policies[0] != "" {
      assert "" in policies[1..] by {
        var i :| 0 <= i < |policies| && policies[i] == "";
        assert policies[1..][i - 1] == "";
      }
      match PolicyOutcome(doc, policies[0], fields, owners[0])
      case Err(_) =>
      case Ok(next) => RunPoliciesEmptyFails(Some(next), policies[1..], fields, owners[1..]);
    }
  }

  /** Policies keep the document's keys unambiguous from one to the next. */
  lemma {:induction false} RunPoliciesWellKeyed(doc: Option<map<string, Json>>, policies: seq<string>,
                                                fields: map<string, string>, owners: seq<string>)
    requires |owners| == |policies| && (doc.Some? ==> WellKeyedRoot(doc.value))
    ensures var r := RunPolicies(doc, policies, fields, owners); r.Ok? && r.value.Some? ==> WellKeyedRoot(r.value.value)
    decreases |policies|
  {
    if policies != [] {
      PolicyOutcomeWellKeyed(doc, policies[0], fields, owners[0]);
      match PolicyOutcome(doc, policies[0], fields, owners[0])
      case Err(_) =>
      case Ok(next) => RunPoliciesWellKeyed(Some(next), policies[1..], fields, owners[1..]);
    }
  }

  /**
    What the driver loop leaves behind, starting from `start` and ending at
    `end`: it picked an owner for each policy it ran and ran the policies in
    order; with no error it ran them all, and on an error the document is nil,
    the last policy run failed with that error and the ones before it succeeded.
   */
  ghost predicate DriverRun(start: Option<map<string, Json>>, policies: seq<string>, fields: map<string, string>,
                            owners: seq<string>, err: Option<Error>, end: Option<map<string, Json>>) {
    && 1 <= |owners| <= |policies|
    && (forall i :: 0 <= i < |owners| ==> OwnerOf(policies[i], fields, owners[i]))
    && (err.None? ==> |owners| == |policies| && end.Some? && RunPolicies(start, policies, fields, owners) == Ok(end))
    && (err.Some? ==> end.None? && RunPolicies(start, policies[..|owners|], fields, owners) == Err(err.value))
    && (err.Some? && |owners| > 1 ==> RunPolicies(start, policies[..|owners| - 1], fields, owners[..|owners| - 1]).Ok?)
  }

  /** `addrs` lists exactly the addresses collectKeys reports for the document. */
  ghost predicate Enumerates(orig: map<string, Json>, addrs: seq<Addr>) {
    forall a: Addr :: a in addrs <==> Collectible(Object(orig), a)
  }

  /** `keys` are the dotted paths of the top-level addresses `addrs`, in order. */
  ghost predicate KeyList(keys: seq<string>, addrs: seq<Addr>) {
    && |keys| == |addrs|
    && forall i {:trigger keys[i]} :: 0 <= i < |addrs| ==> |addrs[i]| >= 1 && keys[i] == Path(addrs[i])
  }

  lemma RenderedTop(keys: seq<string>, addrs: seq<Addr>)
    requires Rendered(keys, [], addrs)
    ensures KeyList(keys, addrs)
  {
    forall i | 0 <= i < |addrs| ensures |addrs[i]| >= 1 && keys[i] == Path(addrs[i]) {
      var k := keys[i];
      assert [] + addrs[i] == addrs[i];
    }
  }

  lemma EnumeratedCollectible(orig: map<string, Json>, addrs: seq<Addr>, i: nat)
    requires Enumerates(orig, addrs) && i < |addrs|
    ensures Collectible(Object(orig), addrs[i])
  {
    assert addrs[i] in addrs;
  }

  /** The addresses among `xs` the rule deletes. */
  ghost function MatchedIn(xs: seq<Addr>, rule: Rule): set<Addr> {
    set a | a in xs && Matches(rule, a)
  }

  lemma MatchedInNone(xs: seq<Addr>, rule: Rule)
    requires xs == []
    ensures MatchedIn(xs, rule) == {}
  {
  }

  lemma MatchedInStep(xs: seq<Addr>, i: nat, rule: Rule)
    requires i < |xs|
    ensures Matches(rule, xs[i]) ==> MatchedIn(xs[..i + 1], rule) == MatchedIn(xs[..i], rule) + {xs[i]}
    ensures !Matches(rule, xs[i]) ==> MatchedIn(xs[..i + 1], rule) == MatchedIn(xs[..i], rule)
  {
    assert xs[..i + 1] == xs[..i] + [xs[i]];
  }

  /** Deleting the matched collected addresses is the scrub. */
  lemma MatchedScrub(orig: map<string, Json>, addrs: seq<Addr>, rule: Rule)
    requires Enumerates(orig, addrs)
    ensures Prune(Object(orig), MatchedIn(addrs, rule)).fields == Scrub(Object(orig), rule, None).fields
  {
    PruneScrub(Object(orig), rule, None, MatchedIn(addrs, rule));
  }

  /** A collected path of two or more segments means the document nests, so a one-segment policy fails. */
  lemma PanicOutcome(orig: map<string, Json>, ps: seq<string>, owner: string, addrs: seq<Addr>, i: nat)
    requires Enumerates(orig, addrs) && |ps| == 1 && i < |addrs| && |addrs[i]| >= 2
    ensures TypeOutcome(orig, ps, owner) == Err(IndexOutOfRange)
  {
    assert addrs[i] in addrs;
    HasNestedCollectible(orig);
  }

  /** When every collected path has one segment the document does not nest. */
  lemma OneSegmentFlat(orig: map<string, Json>, addrs: seq<Addr>)
    requires Enumerates(orig, addrs)
    requires forall t :: 0 <= t < |addrs| ==> |addrs[t]| == 1
    ensures !HasNested(orig)
  {
    forall a: Addr | Collectible(Object(orig), a) ensures |a| <= 1 {
      assert a in addrs;
    }
    HasNestedCollectible(orig);
  }

  // ---------------------------------------------------------------------------
  // The mutable document
  // ---------------------------------------------------------------------------

  /** collectKeys from the top of the document: every collectible address, with its dotted path. */
  method CollectTop(m: map<string, Json>) returns (allKeys: seq<string>, ghost addrs: seq<Addr>)
    requires WellKeyedRoot(m)
    ensures Enumerates(m, addrs) && KeyList(allKeys, addrs)
  {
    allKeys, addrs := CollectKeys(m, "", []);
    RenderedTop(allKeys, addrs);
  }

  /** The decoded request body the policies edit in place; `None` is a nil map. */
  class Document {
    var root: Option<map<string, Json>>

    constructor(doc: Option<map<string, Json>>)
      ensures root == doc
    {
      root := doc;
    }

    /** deleteJSONPath on this document; a failed lookup leaves it as it was. */
    method DeletePath(path: string) returns (err: Option<DeleteError>)
      requires root.Some? && '.' in path
      modifies this
      ensures match DeleteJsonPath(old(root).value, path)
        case Ok(m) => root == Some(m) && err.None?
        case Err(e) => root == old(root) && err == Some(e)
    {
      match DeleteJsonPath(root.value, path)
      case Ok(m) =>
        root := Some(m);
        err := None;
      case Err(e) =>
        err := Some(e);
    }

    /**
      processJsonData: apply one policy. On success the document is the
      policy's outcome; on an error it is left as it was. `owner` is the
      schema key taken as customerKeys[0].
     */
    method ProcessPolicy(policy: string, fields: map<string, string>) returns (err: Option<Error>, ghost owner: string)
      requires root.Some? ==> WellKeyedRoot(root.value)
      modifies this
      ensures OwnerOf(policy, fields, owner)
      ensures var out := PolicyOutcome(old(root), policy, fields, owner);
        && (out.Ok? ==> err.None? && root == Some(out.value))
        && (out.Err? ==> err == Some(out.error) && root == old(root))
    {
      ghost var ps0 := SplitPolicies(policy, '.')[0];
      if Candidates(fields, ps0) != {} {
        owner :| owner in Candidates(fields, ps0);
      } else {
        owner := "";
      }
      if root.None? {
        err := Some(NilDocument);
        return;
      }
      if policy == "" {
        err := Some(EmptyPolicy);
        return;
      }
      var ps := SplitAndTrim(policy, '.');
      if |ps| > 2 {
        err := Some(InvalidPolicyFormat);
        return;
      }
      if ps[0] == "Query" {
        err := QueryPass(ps);
        return;
      }
      err, owner := TypeBranch(ps, fields);
    }

    /**
      The type-scoped branch of processJsonData: the schema keys of the
      type, the key paths of the document, and the loop over them with the
      first schema key as the owner.
     */
    method TypeBranch(ps: seq<string>, fields: map<string, string>) returns (err: Option<Error>, ghost owner: string)
      requires root.Some? && WellKeyedRoot(root.value) && 1 <= |ps| <= 2
      modifies this
      ensures Candidates(fields, ps[0]) == {} ==> err == Some(NoMatchingKeys(ps[0])) && root == old(root)
      ensures Candidates(fields, ps[0]) != {} ==>
        && owner in Candidates(fields, ps[0])
        && var out := TypeOutcome(old(root).value, ps, owner);
        && (out.Ok? ==> err.None? && root == Some(out.value))
        && (out.Err? ==> err == Some(out.error) && root == old(root))
    {
      owner := "";
      var customerKeys := CandidateKeys(fields, ps[0]);
      var allKeys, addrs := CollectTop(root.value);
      if |customerKeys| == 0 {
        assert Candidates(fields, ps[0]) == {};
        err := Some(NoMatchingKeys(ps[0]));
        return;
      }
      owner := customerKeys[0];
      assert owner in Candidates(fields, ps[0]);
      ghost var orig := root.value;
      ghost var at;
      err, at := TypePass(ps, customerKeys[0], allKeys, addrs, orig);
      if err.Some? {
        PanicOutcome(orig, ps, owner, addrs, at);
      } else if |ps| == 2 {
        MatchedScrub(orig, addrs, Rule(owner, ps[1]));
        TypeOutcomeScrub(orig, ps, owner);
      } else {
        OneSegmentFlat(orig, addrs);
        TypeOutcomeFlat(orig, ps, owner);
      }
    }

    /** The `Query.field` branch: delete the field from the `data` object. */
    method QueryPass(ps: seq<string>) returns (err: Option<Error>)
      requires root.Some? && 1 <= |ps| <= 2
      modifies this
      ensures var out := QueryOutcome(old(root).value, ps);
        && (out.Ok? ==> err.None? && root == Some(out.value))
        && (out.Err? ==> err == Some(out.error) && root == old(root))
    {
      var m := root.value;
      if !("data" in m && m["data"].Object?) {
        err := Some(DataNotMap);
        return;
      }
      if |ps| < 2 {
        err := Some(IndexOutOfRange);
        return;
      }
      var data := m["data"].fields;
      if ps[1] in data {
        root := Some(m["data" := Object(data - {ps[1]})]);
        err := None;
      } else {
        err := Some(KeyNotFoundInData(ps[0]));
      }
    }

    /**
      The loop over the collected key paths of a type-scoped policy: delete
      every path whose last two segments are the field and the owner. With a
      two-segment policy the document ends pruned at exactly the matching
      paths; with a one-segment policy it is left alone, and the loop stops
      at the first path of two or more segments, `at`.
     */
    method TypePass(ps: seq<string>, owner: string, allKeys: seq<string>, ghost addrs: seq<Addr>, ghost orig: map<string, Json>)
      returns (err: Option<Error>, ghost at: nat)
      requires root == Some(orig) && WellKeyedRoot(orig)
      requires 1 <= |ps| <= 2
      requires Enumerates(orig, addrs)
      requires KeyList(allKeys, addrs)
      modifies this
      ensures err.Some? ==> |ps| == 1 && at < |addrs| && |addrs[at]| >= 2 && err == Some(IndexOutOfRange) && root == Some(orig)
      ensures err.None? && |ps| == 2 ==> root == Some(Prune(Object(orig), MatchedIn(addrs, Rule(owner, ps[1]))).fields)
      ensures err.None? && |ps| == 1 ==> root == Some(orig) && forall t :: 0 <= t < |addrs| ==> |addrs[t]| == 1
    {
      at := 0;
      ghost var rule := Rule(owner, ps[|ps| - 1]);
      ghost var done: set<Addr> := {};
      PruneNothing(Object(orig));
      MatchedInNone(addrs[..0], rule);
      for i := 0 to |allKeys|
        invariant root.Some? && root.value == Prune(Object(orig), done).fields
        invariant |ps| == 2 ==> done == MatchedIn(addrs[..i], rule)
        invariant |ps| == 1 ==> done == {} && root == Some(orig)
        invariant |ps| == 1 ==> forall t :: 0 <= t < i ==> |addrs[t]| == 1
      {
        err, done := TypeStep(ps, owner, allKeys, addrs, orig, i, rule, done);
        if err.Some? {
          at := i;
          return;
        }
      }
      assert addrs[..|allKeys|] == addrs;
      assert |ps| == 2 ==> |ps| - 1 == 1;
      err := None;
    }

    /** One turn of the loop over the collected key paths, with what it does to the deleted set. */
    method TypeStep(ps: seq<string>, owner: string, allKeys: seq<string>, ghost addrs: seq<Addr>, ghost orig: map<string, Json>,
                    i: nat, ghost rule: Rule, ghost done: set<Addr>)
      returns (err: Option<Error>, ghost grown: set<Addr>)
      requires WellKeyedRoot(orig) && 1 <= |ps| <= 2 && rule == Rule(owner, ps[|ps| - 1])
      requires Enumerates(orig, addrs) && KeyList(allKeys, addrs) && i < |allKeys|
      requires root.Some? && root.value == Prune(Object(orig), done).fields
      requires |ps| == 2 ==> done == MatchedIn(addrs[..i], rule)
      requires |ps| == 1 ==> done == {}
      modifies this
      ensures err.Some? ==> |ps| == 1 && |addrs[i]| >= 2 && err == Some(IndexOutOfRange) && root == old(root)
      ensures err.None? ==> root.Some? && root.value == Prune(Object(orig), grown).fields
      ensures err.None? && |ps| == 2 ==> grown == MatchedIn(addrs[..i + 1], rule)
      ensures err.None? && |ps| == 1 ==> grown == {} && |addrs[i]| == 1
    {
      ghost var a := addrs[i];
      EnumeratedCollectible(orig, addrs, i);
      err, grown := VisitKey(ps, owner, allKeys[i], a, orig, done);
      if err.Some? {
        return;
      }
      if |ps| == 2 {
        assert |ps| - 1 == 1;
        MatchedInStep(addrs, i, rule);
      }
    }

    /**
      One turn of the loop: split the key path, and delete it when its last
      two segments are the field and the owner. With a one-segment policy the
      first path of two or more segments reaches the missing `policies[1]`.
     */
    method VisitKey(ps: seq<string>, owner: string, key: string, ghost a: Addr, ghost orig: map<string, Json>, ghost done: set<Addr>)
      returns (err: Option<Error>, ghost grown: set<Addr>)
      requires 1 <= |ps| <= 2 && WellKeyedRoot(orig) && Collectible(Object(orig), a) && key == Path(a)
      requires root.Some? && root.value == Prune(Object(orig), done).fields
      requires |ps| == 1 ==> done == {}
      modifies this
      ensures |ps| == 1 && |a| >= 2 ==> err == Some(IndexOutOfRange) && root == old(root)
      ensures !(|ps| == 1 && |a| >= 2) ==>
        err.None? && root.Some? && root.value == Prune(Object(orig), grown).fields
      ensures !(|ps| == 1 && |a| >= 2) && |ps| == 2 && Matches(Rule(owner, ps[1]), a) ==> grown == done + {a}
      ensures !(|ps| == 1 && |a| >= 2) && !(|ps| == 2 && Matches(Rule(owner, ps[1]), a)) ==> grown == done
    {
      grown := done;
      ghost var rule := Rule(owner, ps[|ps| - 1]);
      var keys := SplitKeyPath(key, a, orig, rule);
      ghost var hit := Matches(rule, a);
      if |keys| > 1 {
        if |ps| < 2 {
          err := Some(IndexOutOfRange);
          return;
        }
        assert |ps| - 1 == 1;
        var lastKey := keys[|keys| - 1];
        var secondLastKey := keys[|keys| - 2];
        if StripIndices(lastKey) == ps[1] && StripIndices(secondLastKey) == owner {
          assert hit;
          DeleteCollected(key, a, orig, done);
          grown := done + {a};
        } else {
          assert !hit;
        }
      } else {
        assert !hit;
      }
      err := None;
    }

    /** Split a collected key path on `.`: one piece per segment, and the last two pieces decide a match. */
    method SplitKeyPath(key: string, ghost a: Addr, ghost orig: map<string, Json>, ghost rule: Rule) returns (keys: seq<string>)
      requires WellKeyedRoot(orig) && Collectible(Object(orig), a) && key == Path(a)
      ensures |keys| == |a|
      ensures |a| >= 2 ==> (Matches(rule, a) <==> StripIndices(keys[|keys| - 1]) == rule.field && StripIndices(keys[|keys| - 2]) == rule.owner)
      ensures |a| < 2 ==> !Matches(rule, a)
    {
      keys := SplitAndTrim(key, '.');
      PiecesOfPath(orig, a, keys, rule);
    }

    /** Delete a collected path from the document pruned at `done`: the result is pruned at one more address. */
    method DeleteCollected(key: string, ghost a: Addr, ghost orig: map<string, Json>, ghost done: set<Addr>)
      requires WellKeyedRoot(orig) && Collectible(Object(orig), a) && |a| >= 2 && key == Path(a)
      requires root.Some? && root.value == Prune(Object(orig), done).fields
      modifies this
      ensures root.Some? && root.value == Prune(Object(orig), done + {a}).fields
    {
      CollectibleSafe(Object(orig), a);
      CollectibleEndsWithKey(Object(orig), a);
      DeletePathOfAddr(root.value, a);
      assert Object(root.value) == Prune(Object(orig), done);
      RemovePruned(Object(orig), done, a);
      ghost var r := RemoveAt(Prune(Object(orig), done), a[..|a| - 1], a[|a| - 1].name);
      assert DeleteJsonPath(root.value, key) == if r.Ok? then Ok(r.value.fields) else Err(r.error);
      var _ := DeletePath(key);
      if r.Ok? {
        assert root == Some(r.value.fields);
      }
    }

    /** One turn of the driver loop: the run over one more policy. */
    method ApplyNext(ghost start: Option<map<string, Json>>, policies: seq<string>, fields: map<string, string>,
                     ghost owners: seq<string>, i: nat)
      returns (err: Option<Error>, ghost grown: seq<string>)
      requires i < |policies| && |owners| == i && OwnersFit(policies, fields, owners)
      requires root.Some? ==> WellKeyedRoot(root.value)
      requires RunPolicies(start, policies[..i], fields, owners) == Ok(root)
      modifies this
      ensures |grown| == i + 1 && grown[..i] == owners && OwnersFit(policies, fields, grown)
      ensures root.Some? ==> WellKeyedRoot(root.value)
      ensures var run := RunPolicies(start, policies[..i + 1], fields, grown);
        && (err.None? ==> root.Some? && run == Ok(root))
        && (err.Some? ==> run == Err(err.value))
    {
      ghost var before := root;
      ghost var owner;
      err, owner := ProcessPolicy(policies[i], fields);
      ghost var out := PolicyOutcome(before, policies[i], fields, owner);
      PolicyOutcomeWellKeyed(before, policies[i], fields, owner);
      RunPoliciesStep(start, policies, fields, owners, i, before, owner);
      grown := owners + [owner];
      assert grown[..i] == owners;
      if out.Ok? {
        assert root == Some(out.value) && WellKeyedRoot(out.value);
      } else {
        assert err == Some(out.error);
      }
    }

    /**
      The driver: reject a missing header, split it on commas, and apply the
      policies in order, stopping at the first error. On an error the
      handler's document variable is nil, as processJsonData returns nil with
      its error. `owners` are the schema keys picked for the policies run.
     */
    method ApplyPolicies(header: string, fields: map<string, string>) returns (err: Option<Error>, ghost owners: seq<string>)
      requires root.Some? ==> WellKeyedRoot(root.value)
      modifies this
      ensures header == "" ==> err == Some(MissingPoliciesHeader) && root == old(root) && owners == []
      ensures header != "" ==> DriverRun(old(root), SplitPolicies(header, ','), fields, owners, err, root)
    {
      owners := [];
      if header == "" {
        err := Some(MissingPoliciesHeader);
        return;
      }
      var policies := SplitAndTrim(header, ',');
      if |policies| == 0 {
        // strings.Split never returns an empty slice, so this check cannot fire
        assert false;
      }
      err, owners := RunAll(policies, fields);
    }

    /**
      The loop over the policies: apply each in turn and stop at the first
      error, leaving the document nil.
     */
    method RunAll(policies: seq<string>, fields: map<string, string>) returns (err: Option<Error>, ghost owners: seq<string>)
      requires |policies| >= 1
      requires root.Some? ==> WellKeyedRoot(root.value)
      modifies this
      ensures DriverRun(old(root), policies, fields, owners, err, root)
    {
      owners := [];
      ghost var start := root;
      for i := 0 to |policies|
        invariant |owners| == i
        invariant OwnersFit(policies, fields, owners)
        invariant root.Some? ==> WellKeyedRoot(root.value)
        invariant RunPolicies(start, policies[..i], fields, owners) == Ok(root)
      {
        ghost var prev := owners;
        var e;
        e, owners := ApplyNext(start, policies, fields, owners, i);
        if e.Some? {
          OwnersFitAll(policies, fields, owners);
          root := None;
          err := e;
          return;
        }
      }
      assert policies[..|policies|] == policies;
      OwnersFitAll(policies, fields, owners);
      err := None;
    }
  }
}
