/** Merging MCP server policy fragments into a sandbox policy, `mcp_policy.rs`, on parsed YAML.
    A fragment or a base is given as its parse result; a blank one is `None`. */
module PolicyMerge {
  import opened Wrappers
  import opened Sequences

  datatype Value = Null | Scalar(text: string) | Str(s: string) | List(items: seq<Value>) | Mapping(entries: map<Value, Value>)

  datatype MergeError = BaseUnparsable | BaseNotMapping | FragmentUnparsable | FragmentNotMapping | PoliciesNotMapping

  /** A document that is not blank: its value, or None where it does not parse. */
  type Document = Option<Value>

  const NETWORK_POLICIES: Value := Str("network_policies")
  const VERSION: Value := Str("version")
  const FILESYSTEM_POLICY: Value := Str("filesystem_policy")

  type Entries = map<Value, Value>

  predicate IsBareBody(m: Entries) {
    m != map[] && forall k | k in m :: k.Str? && k != VERSION && k != FILESYSTEM_POLICY
  }

  /** The policies a fragment brings: its `network_policies` mapping, or the whole of a bare body. */
  function Extract(parsed: Value): Result<Entries, MergeError> {
    if !parsed.Mapping? then Err(FragmentNotMapping)
    else
      var m := parsed.entries;
      if NETWORK_POLICIES in m && m[NETWORK_POLICIES].Mapping? then Ok(m[NETWORK_POLICIES].entries)
      else if IsBareBody(m) then Ok(m)
      else Ok(map[])
  }

  /** Merge one set of policies into the root mapping. */
  function MergeOne(root: Entries, incoming: Entries): Result<Entries, MergeError> {
    if NETWORK_POLICIES !in root then Ok(root[NETWORK_POLICIES := Mapping(incoming)])
    else if !root[NETWORK_POLICIES].Mapping? then Err(PoliciesNotMapping)
    else Ok(root[NETWORK_POLICIES := Mapping(root[NETWORK_POLICIES].entries + incoming)])
  }

  function MergeDocument(root: Entries, d: Document): Result<Entries, MergeError> {
    match d
    case None => Err(FragmentUnparsable)
    case Some(v) =>
      match Extract(v)
      case Err(e) => Err(e)
      case Ok(incoming) => MergeOne(root, incoming)
  }

  function MergeDocuments(root: Entries, ds: seq<Document>): Result<Entries, MergeError>
    decreases |ds|
  {
    if ds == [] then Ok(root)
    else
      match MergeDocument(root, ds[0])
      case Err(e) => Err(e)
      case Ok(next) => MergeDocuments(next, ds[1..])
  }

  /** Drop blank fragments. */
  function NonBlank(fragments: seq<Option<Document>>): seq<Document> {
    if fragments == [] then []
    else (if fragments[0].Some? then [fragments[0].value] else []) + NonBlank(fragments[1..])
  }

  function RootOf(base: Option<Document>): Result<Entries, MergeError> {
    match base
    case None => Ok(map[])
    case Some(None) => Err(BaseUnparsable)
    case Some(Some(v)) => if v.Mapping? then Ok(v.entries) else Err(BaseNotMapping)
  }

  /** Without fragments the base is returned as it is, even where it is no mapping. */
  function Merged(base: Option<Document>, fragments: seq<Option<Document>>): Result<Option<Document>, MergeError> {
    var ds := NonBlank(fragments);
    if ds == [] then Ok(base)
    else
      match RootOf(base)
      case Err(e) => Err(e)
      case Ok(root) =>
        match MergeDocuments(root, ds)
        case Err(e) => Err(e)
        case Ok(out) => Ok(Some(Some(Mapping(out))))
  }

  method MergeNetworkPolicies(base: Value, incoming: seq<(Value, Value)>) returns (r: Result<Value, MergeError>)
    ensures r == if !base.Mapping? then Err(BaseNotMapping)
                 else match MergeOne(base.entries, EntriesOf(incoming))
                      case Err(e) => Err(e)
                      case Ok(root) => Ok(Mapping(root))
  {
    if !base.Mapping? {
      return Err(BaseNotMapping);
    }
    var root := base.entries;
    if NETWORK_POLICIES !in root {
      root := root[NETWORK_POLICIES := Mapping(map[])];
    }
    if !root[NETWORK_POLICIES].Mapping? {
      return Err(PoliciesNotMapping);
    }
    var net := root[NETWORK_POLICIES].entries;
    ghost var before := net;
    for i := 0 to |incoming|
      invariant net == before + EntriesOf(incoming[..i])
    {
      assert incoming[..i + 1][..i] == incoming[..i];
      net := net[incoming[i].0 := incoming[i].1];
    }
    assert incoming[..|incoming|] == incoming;
    assert NETWORK_POLICIES !in base.entries ==> net == EntriesOf(incoming);
    root := root[NETWORK_POLICIES := Mapping(net)];
    assert root == base.entries[NETWORK_POLICIES := Mapping(net)];
    return Ok(Mapping(root));
  }

  method KeepNonBlank(fragments: seq<Option<Document>>) returns (frags: seq<Document>)
    ensures frags == NonBlank(fragments)
  {
    frags := [];
    for i := 0 to |fragments|
      invariant frags == NonBlank(fragments[..i])
    {
      NonBlankSnoc(fragments, i);
      if fragments[i].Some? {
        frags := frags + [fragments[i].value];
      }
    }
    assert fragments[..|fragments|] == fragments;
  }

  lemma NonBlankSnoc(fragments: seq<Option<Document>>, i: nat)
    requires i < |fragments|
    ensures NonBlank(fragments[..i + 1])
         == NonBlank(fragments[..i]) + if fragments[i].Some? then [fragments[i].value] else []
  {
    assert fragments[..i + 1] == fragments[..i] + [fragments[i]];
    NonBlankAppend(fragments[..i], [fragments[i]]);
    assert [fragments[i]][1..] == [];
  }

  method MergePolicyFragments(base: Option<Document>, fragments: seq<Option<Document>>)
    returns (r: Result<Option<Document>, MergeError>)
    ensures r == Merged(base, fragments)
  {
    var frags := KeepNonBlank(fragments);
    if frags == [] {
      return Ok(base);
    }
    var start := RootOf(base);
    if start.Err? {
      return Err(start.error);
    }
    var root := start.value;
    assert frags[0..] == frags;
    for i := 0 to |frags|
      invariant MergeDocuments(root, frags[i..]) == MergeDocuments(start.value, frags)
    {
      assert frags[i..][0] == frags[i] && frags[i..][1..] == frags[i + 1..];
      var next := MergeDocument(root, frags[i]);
      if next.Err? {
        return Err(next.error);
      }
      root := next.value;
    }
    assert frags[|frags|..] == [];
    return Ok(Some(Some(Mapping(root))));
  }

  /** Inserting pairs one after the other: a later pair replaces an earlier one. */
  function EntriesOf(pairs: seq<(Value, Value)>): Entries {
    if pairs == [] then map[]
    else EntriesOf(pairs[..|pairs| - 1])[pairs[|pairs| - 1].0 := pairs[|pairs| - 1].1]
  }

  /** Pair i is the last with this key. */
  predicate LastPair(pairs: seq<(Value, Value)>, i: nat, key: Value) {
    i < |pairs| && pairs[i].0 == key && forall j | i < j < |pairs| :: pairs[j].0 != key
  }

  lemma {:induction false} EntryOfLast(pairs: seq<(Value, Value)>, i: nat, key: Value)
    requires LastPair(pairs, i, key)
    ensures key in EntriesOf(pairs) && EntriesOf(pairs)[key] == pairs[i].1
    decreases |pairs|
  {
    var n := |pairs| - 1;
    if i < n {
      assert LastPair(pairs[..n], i, key) && pairs[n].0 != key;
      EntryOfLast(pairs[..n], i, key);
    }
  }

  lemma {:induction false} EntryHasPair(pairs: seq<(Value, Value)>, key: Value)
    requires key in EntriesOf(pairs)
    ensures exists i: nat :: LastPair(pairs, i, key)
    decreases |pairs|
  {
    var n := |pairs| - 1;
    if pairs[n].0 == key {
      assert LastPair(pairs, n, key);
    } else {
      EntryHasPair(pairs[..n], key);
      var i: nat :| LastPair(pairs[..n], i, key);
      assert LastPair(pairs, i, key);
    }
  }

  /** Every key keeps the value of its last pair, and there are no other keys. */
  lemma EntriesOfIs(pairs: seq<(Value, Value)>, key: Value)
    ensures key in EntriesOf(pairs) <==> exists i: nat :: LastPair(pairs, i, key)
    ensures forall i: nat | LastPair(pairs, i, key) :: key in EntriesOf(pairs) && EntriesOf(pairs)[key] == pairs[i].1
  {
    forall i: nat | LastPair(pairs, i, key) ensures key in EntriesOf(pairs) && EntriesOf(pairs)[key] == pairs[i].1 {
      EntryOfLast(pairs, i, key);
    }
    if key in EntriesOf(pairs) {
      EntryHasPair(pairs, key);
    }
  }

  // ------------------------------------------------------------------ laws

  lemma {:induction false} DocumentsAppend(root: Entries, a: seq<Document>, b: seq<Document>)
    ensures MergeDocuments(root, a + b)
         == match MergeDocuments(root, a)
            case Err(e) => Err(e)
            case Ok(mid) => MergeDocuments(mid, b)
    decreases |a|
  {
    if a == [] {
      assert a + b == b;
    } else {
      assert (a + b)[1..] == a[1..] + b;
      match MergeDocument(root, a[0])
      case Ok(next) => DocumentsAppend(next, a[1..], b);
      case Err(_) =>
    }
  }

  lemma {:induction false} NonBlankAppend(a: seq<Option<Document>>, b: seq<Option<Document>>)
    ensures NonBlank(a + b) == NonBlank(a) + NonBlank(b)
  {
    if a == [] {
      assert a + b == b && [] + NonBlank(b) == NonBlank(b);
    } else {
      assert (a + b)[1..] == a[1..] + b;
      NonBlankAppend(a[1..], b);
      NonBlankFirst(a);
      NonBlankFirst(a + b);
      if a[0].Some? {
        ConcatAssociative([a[0].value], NonBlank(a[1..]), NonBlank(b));
      }
    }
  }

  lemma NonBlankFirst(a: seq<Option<Document>>)
    requires a != []
    ensures NonBlank(a) == if a[0].Some? then [a[0].value] + NonBlank(a[1..]) else NonBlank(a[1..])
  {
  }

  /** Two batches are one batch, errors included. */
  lemma BatchesCompose(base: Option<Document>, a: seq<Option<Document>>, b: seq<Option<Document>>)
    ensures Merged(base, a + b)
         == match Merged(base, a)
            case Err(e) => Err(e)
            case Ok(mid) => Merged(mid, b)
  {
    NonBlankAppend(a, b);
    if NonBlank(a) == [] {
      assert NonBlank(a) + NonBlank(b) == NonBlank(b);
    } else {
      assert NonBlank(a) + [] == NonBlank(a);
      match RootOf(base)
      case Err(_) =>
      case Ok(root) => DocumentsAppend(root, NonBlank(a), NonBlank(b));
    }
  }

  function PoliciesOf(root: Entries): Entries {
    if NETWORK_POLICIES in root && root[NETWORK_POLICIES].Mapping? then root[NETWORK_POLICIES].entries else map[]
  }

  /** The policies a list brings, a later fragment over an earlier one. */
  function Incoming(ds: seq<Document>): Entries
  {
    if ds == [] then map[]
    else
      var last := ds[|ds| - 1];
      Incoming(ds[..|ds| - 1])
      + if last.Some? && Extract(last.value).Ok? then Extract(last.value).value else map[]
  }

  lemma OneDocument(root: Entries, d: Document)
    ensures MergeDocuments(root, [d]) == MergeDocument(root, d)
  {
    assert [d][1..] == [] && [d][0] == d;
  }

  lemma DocumentEffect(root: Entries, d: Document)
    requires MergeDocument(root, d).Ok?
    ensures d.Some? && Extract(d.value).Ok?
    ensures PoliciesOf(MergeDocument(root, d).value) == PoliciesOf(root) + Extract(d.value).value
    ensures MergeDocument(root, d).value - {NETWORK_POLICIES} == root - {NETWORK_POLICIES}
    ensures NETWORK_POLICIES in MergeDocument(root, d).value && MergeDocument(root, d).value[NETWORK_POLICIES].Mapping?
  {
  }

  lemma PoliciesAssociative(a: Entries, b: Entries, c: Entries)
    ensures a + b + c == a + (b + c)
  {
  }

  lemma DocumentsSnoc(root: Entries, ds: seq<Document>)
    requires ds != [] && MergeDocuments(root, ds).Ok?
    ensures var rest, last := ds[..|ds| - 1], ds[|ds| - 1];
            MergeDocuments(root, rest).Ok? && MergeDocuments(root, ds) == MergeDocument(MergeDocuments(root, rest).value, last)
  {
    var rest, last := ds[..|ds| - 1], ds[|ds| - 1];
    assert ds == rest + [last];
    DocumentsAppend(root, rest, [last]);
    if MergeDocuments(root, rest).Ok? {
      OneDocument(MergeDocuments(root, rest).value, last);
    }
  }

  lemma {:induction false} DocumentsEffect(root: Entries, ds: seq<Document>)
    requires MergeDocuments(root, ds).Ok?
    ensures PoliciesOf(MergeDocuments(root, ds).value) == PoliciesOf(root) + Incoming(ds)
    ensures MergeDocuments(root, ds).value - {NETWORK_POLICIES} == root - {NETWORK_POLICIES}
    ensures ds != [] ==> NETWORK_POLICIES in MergeDocuments(root, ds).value
                         && MergeDocuments(root, ds).value[NETWORK_POLICIES].Mapping?
    decreases |ds|
  {
    if ds != [] {
      var rest, last := ds[..|ds| - 1], ds[|ds| - 1];
      DocumentsSnoc(root, ds);
      DocumentsEffect(root, rest);
      DocumentEffect(MergeDocuments(root, rest).value, last);
      PoliciesAssociative(PoliciesOf(root), Incoming(rest), Extract(last.value).value);
    }
  }

  lemma {:induction false} DocumentsParse(root: Entries, ds: seq<Document>)
    requires MergeDocuments(root, ds).Ok?
    ensures forall d | d in ds :: d.Some? && Extract(d.value).Ok?
    decreases |ds|
  {
    if ds != [] {
      DocumentsParse(MergeDocument(root, ds[0]).value, ds[1..]);
      assert ds == [ds[0]] + ds[1..];
    }
  }

  lemma {:induction false} DocumentsAccepted(root: Entries, ds: seq<Document>)
    requires NETWORK_POLICIES in root && root[NETWORK_POLICIES].Mapping?
    requires forall d | d in ds :: d.Some? && Extract(d.value).Ok?
    ensures MergeDocuments(root, ds).Ok?
    decreases |ds|
  {
    if ds != [] {
      assert ds[0] in ds && forall d | d in ds[1..] :: d in ds;
      DocumentsAccepted(MergeDocument(root, ds[0]).value, ds[1..]);
    }
  }

  /** Merging changes nothing but the policies: every other key of the base keeps its value, and
      each policy has the value of the last fragment that names it, or the base's own. */
  lemma MergedContent(base: Option<Document>, fragments: seq<Option<Document>>)
    requires NonBlank(fragments) != [] && Merged(base, fragments).Ok?
    ensures RootOf(base).Ok? && RootOf(Merged(base, fragments).value).Ok?
    ensures var root, out := RootOf(base).value, RootOf(Merged(base, fragments).value).value;
      && out - {NETWORK_POLICIES} == root - {NETWORK_POLICIES}
      && NETWORK_POLICIES in out
      && out[NETWORK_POLICIES] == Mapping(PoliciesOf(root) + Incoming(NonBlank(fragments)))
  {
    DocumentsEffect(RootOf(base).value, NonBlank(fragments));
  }

  /** A name keeps the value of its last writer. */
  lemma {:induction false} LastWriter(ds: seq<Document>, i: nat, name: Value)
    requires forall d | d in ds :: d.Some? && Extract(d.value).Ok?
    requires i < |ds| && name in Extract(ds[i].value).value
    requires forall j | i < j < |ds| :: name !in Extract(ds[j].value).value
    ensures name in Incoming(ds) && Incoming(ds)[name] == Extract(ds[i].value).value[name]
    decreases |ds|
  {
    if i < |ds| - 1 {
      var rest := ds[..|ds| - 1];
      assert forall d | d in rest :: d in ds;
      LastWriter(rest, i, name);
    }
  }

  /** Merging the same list a second time changes nothing. */
  lemma MergeIsIdempotent(base: Option<Document>, fragments: seq<Option<Document>>)
    requires Merged(base, fragments).Ok?
    ensures Merged(Merged(base, fragments).value, fragments) == Merged(base, fragments)
  {
    var ds := NonBlank(fragments);
    if ds != [] {
      var root := RootOf(base).value;
      var once := MergeDocuments(root, ds).value;
      DocumentsEffect(root, ds);
      DocumentsParse(root, ds);
      DocumentsAccepted(once, ds);
      var twice := MergeDocuments(once, ds).value;
      DocumentsEffect(once, ds);
      assert PoliciesOf(root) + Incoming(ds) + Incoming(ds) == PoliciesOf(root) + Incoming(ds);
      assert twice == once by {
        assert once == (once - {NETWORK_POLICIES})[NETWORK_POLICIES := Mapping(PoliciesOf(once))];
        assert twice == (twice - {NETWORK_POLICIES})[NETWORK_POLICIES := Mapping(PoliciesOf(twice))];
      }
    }
  }

  /** What a fragment brings when it is one document: a `network_policies` key that is not a mapping
      is not ignored; unless a document key stands beside it, the fragment is read as a bare body
      and its keys become policy names. */
  lemma MalformedFragmentBringsItsKeys(m: Entries)
    requires NETWORK_POLICIES in m && !m[NETWORK_POLICIES].Mapping?
    ensures Extract(Mapping(m)) == Ok(m) || Extract(Mapping(m)) == Ok(map[])
    ensures Extract(Mapping(m)) == Ok(m)
        <==> (forall k | k in m :: k.Str?) && VERSION !in m && FILESYSTEM_POLICY !in m
  {
    if forall k | k in m :: k.Str? && k != VERSION && k != FILESYSTEM_POLICY {
      assert IsBareBody(m);
    }
  }

  // ------------------------------------------------------------------ what a name ends up with

  predicate HasPolicies(m: Entries) {
    Str("network_policies") in m && m[Str("network_policies")].Mapping?
  }

  /** The fragment gives this policy this value: under its `network_policies`, or, where that is no mapping and
      all its keys are strings other than the two document keys, as one of its own keys. */
  predicate Gives(d: Document, name: Value, v: Value) {
    && d.Some? && d.value.Mapping?
    && var m := d.value.entries;
       if HasPolicies(m) then
         name in m[Str("network_policies")].entries && m[Str("network_policies")].entries[name] == v
       else
         && (forall k | k in m :: k.Str?) && Str("version") !in m && Str("filesystem_policy") !in m
         && name in m && m[name] == v
  }

  ghost predicate Names(d: Document, name: Value) {
    exists v :: Gives(d, name, v)
  }

  lemma ExtractIs(d: Document, name: Value)
    requires d.Some? && d.value.Mapping?
    ensures Extract(d.value).Ok?
    ensures forall v :: (Gives(d, name, v) <==> name in Extract(d.value).value && Extract(d.value).value[name] == v)
    ensures Names(d, name) <==> name in Extract(d.value).value
  {
    var m, got := d.value.entries, Extract(d.value).value;
    if name in got {
      assert Gives(d, name, got[name]);
    }
  }

  /** The last fragment from i on names it, with this value, and no later one does. */
  ghost predicate LastGives(ds: seq<Document>, i: nat, name: Value, v: Value) {
    i < |ds| && Gives(ds[i], name, v) && forall j | i < j < |ds| :: !Names(ds[j], name)
  }

  ghost predicate NoneNames(ds: seq<Document>, name: Value) {
    forall d | d in ds :: !Names(d, name)
  }

  lemma {:induction false} IncomingIs(ds: seq<Document>, name: Value)
    requires forall d | d in ds :: d.Some? && d.value.Mapping?
    ensures name !in Incoming(ds) <==> NoneNames(ds, name)
    ensures name in Incoming(ds) ==> exists i: nat :: LastGives(ds, i, name, Incoming(ds)[name])
    decreases |ds|
  {
    if ds != [] {
      var n := |ds| - 1;
      var rest, last := ds[..n], ds[n];
      assert last in ds && ds == rest + [last] && forall d | d in rest :: d in ds;
      IncomingIs(rest, name);
      ExtractIs(last, name);
      if Names(last, name) {
        assert LastGives(ds, n, name, Incoming(ds)[name]);
      } else if name in Incoming(rest) {
        var i: nat :| LastGives(rest, i, name, Incoming(rest)[name]);
        assert LastGives(ds, i, name, Incoming(ds)[name]);
      }
    }
  }

  /** The root mapping of a base, when it is one: a blank base is an empty mapping. */
  predicate Rooted(base: Option<Document>, root: Entries) {
    (base.None? && root == map[]) || base == Some(Some(Mapping(root)))
  }

  lemma DocumentOkIff(root: Entries, d: Document)
    ensures MergeDocument(root, d).Ok?
        <==> d.Some? && d.value.Mapping? && (NETWORK_POLICIES in root ==> root[NETWORK_POLICIES].Mapping?)
  {
  }

  lemma {:induction false} DocumentsOkIff(root: Entries, ds: seq<Document>)
    ensures MergeDocuments(root, ds).Ok?
        <==> AllMappings(ds) && (ds != [] && NETWORK_POLICIES in root ==> root[NETWORK_POLICIES].Mapping?)
    decreases |ds|
  {
    if ds != [] {
      DocumentOkIff(root, ds[0]);
      assert ds == [ds[0]] + ds[1..] && ds[0] in ds;
      if MergeDocument(root, ds[0]).Ok? {
        DocumentEffect(root, ds[0]);
        DocumentsOkIff(MergeDocument(root, ds[0]).value, ds[1..]);
        assert AllMappings(ds) <==> AllMappings(ds[1..]);
      }
    }
  }

  ghost predicate Mergeable(base: Option<Document>) {
    exists root: Entries :: Rooted(base, root) && (NETWORK_POLICIES in root ==> root[NETWORK_POLICIES].Mapping?)
  }

  predicate AllMappings(ds: seq<Document>) {
    forall d | d in ds :: d.Some? && d.value.Mapping?
  }

  /** Merging succeeds exactly when there is nothing to merge, or the base is blank or a mapping whose
      `network_policies`, if any, is a mapping, and every fragment parses to a mapping. */
  lemma MergedOkIff(base: Option<Document>, fragments: seq<Option<Document>>)
    ensures Merged(base, fragments).Ok? <==> NonBlank(fragments) == [] || (Mergeable(base) && AllMappings(NonBlank(fragments)))
  {
    if NonBlank(fragments) != [] && RootOf(base).Ok? {
      var root := RootOf(base).value;
      assert Rooted(base, root) && forall other: Entries :: Rooted(base, other) ==> other == root;
      DocumentsOkIff(root, NonBlank(fragments));
    }
  }

  /** A root mapping with these policies. */
  function WithPolicies(root: Entries, net: Entries): Entries {
    root[Str("network_policies") := Mapping(net)]
  }

  lemma OnlyPoliciesDiffer(root: Entries, out: Entries, net: Entries)
    requires out - {NETWORK_POLICIES} == root - {NETWORK_POLICIES}
    requires NETWORK_POLICIES in out && out[NETWORK_POLICIES] == Mapping(net)
    ensures out == WithPolicies(root, net)
  {
    assert out == WithPolicies(out - {NETWORK_POLICIES}, net);
    assert WithPolicies(root, net) == WithPolicies(root - {NETWORK_POLICIES}, net);
  }

  /** The policies after a merge: each has the value of the last fragment that gives it one, or the base's own
      where none does, and there are no others.  Every other key of the base is as it was. */
  lemma PolicyOfLastGiver(base: Option<Document>, root: Entries, fragments: seq<Option<Document>>, name: Value)
    returns (net: Entries)
    requires NonBlank(fragments) != [] && Merged(base, fragments).Ok? && Rooted(base, root)
    ensures Merged(base, fragments) == Ok(Some(Some(Mapping(WithPolicies(root, net)))))
    ensures NoneNames(NonBlank(fragments), name) ==>
              if HasPolicies(root) && name in root[Str("network_policies")].entries
              then name in net && net[name] == root[Str("network_policies")].entries[name] else name !in net
    ensures !NoneNames(NonBlank(fragments), name) ==>
              name in net && exists i: nat :: LastGives(NonBlank(fragments), i, name, net[name])
  {
    var ds := NonBlank(fragments);
    DocumentsOkIff(root, ds);
    MergedContent(base, fragments);
    IncomingIs(ds, name);
    net := PoliciesOf(root) + Incoming(ds);
    OnlyPoliciesDiffer(root, RootOf(Merged(base, fragments).value).value, net);
  }
}
