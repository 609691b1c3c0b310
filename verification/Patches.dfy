/**
JSON patches: how nfd-master forms them (pkg/utils/jsonpatch.go, createPatches)
and what an API server does with them by sections 4.1 to 4.3 of RFC 6902, with
the pointers of section 3 of RFC 6901.
*/
module Patches {
  import opened Basics
  import opened Names
  import opened Ordering

  datatype Verb = Add | Remove | Replace

  /** The parts of a node object that are patched. */
  datatype Section = Labels | Annotations | Capacity | Allocatable

  /** The value member is omitted from the JSON when it is empty. */
  datatype JsonPatch = JsonPatch(verb: Verb, path: string, value: string)

  /** The same operation with its pointer resolved. */
  datatype Op = Op(verb: Verb, key: string, value: string)

  // ----- Pointers -----

  function Tokens(sec: Section): (string, string) {
    match sec
    case Labels => ("metadata", "labels")
    case Annotations => ("metadata", "annotations")
    case Capacity => ("status", "capacity")
    case Allocatable => ("status", "allocatable")
  }

  function Base(sec: Section): string {
    "/" + Tokens(sec).0 + "/" + Tokens(sec).1
  }

  /** strings.ReplaceAll(key, "/", "~1") */
  function Escape(key: string): string {
    if key == "" then "" else (if key[0] == '/' then "~1" else [key[0]]) + Escape(key[1..])
  }

  /** A reference token of RFC 6901 decoded, or None when it is malformed. */
  function Unescape(token: string): Option<string> {
    if token == "" then Some("")
    else if token[0] != '~' then
      match Unescape(token[1..])
      case None => None
      case Some(rest) => Some([token[0]] + rest)
    else if |token| < 2 || token[1] !in "01" then None
    else
      match Unescape(token[2..])
      case None => None
      case Some(rest) => Some((if token[1] == '1' then "/" else "~") + rest)
  }

  /** path.Join of an absolute section path and a token without slashes. */
  function PointerJoin(sec: Section, token: string): string {
    if token == "" || token == "." then Base(sec)
    else if token == ".." then "/" + Tokens(sec).0
    else Base(sec) + "/" + token
  }

  function NewJsonPatch(verb: Verb, sec: Section, key: string, value: string): JsonPatch {
    JsonPatch(verb, PointerJoin(sec, Escape(key)), value)
  }

  /** The member that a pointer designates in a node object. */
  function Resolve(path: string): Option<(Section, string)> {
    var parts := Split(path, '/');
    if |parts| != 4 || parts[0] != "" then None
    else
      var sec :- SectionOf(parts[1], parts[2]);
      match Unescape(parts[3])
      case None => None
      case Some(key) => Some((sec, key))
  }

  function SectionOf(a: string, b: string): SectionResult {
    if (a, b) == Tokens(Labels) then Found(Labels)
    else if (a, b) == Tokens(Annotations) then Found(Annotations)
    else if (a, b) == Tokens(Capacity) then Found(Capacity)
    else if (a, b) == Tokens(Allocatable) then Found(Allocatable)
    else NotFound
  }

  datatype SectionResult = Found(sec: Section) | NotFound {
    predicate IsFailure() { NotFound? }
    function PropagateFailure(): Option<(Section, string)> requires NotFound? { None }
    function Extract(): Section requires Found? { sec }
  }

  lemma {:induction false} EscapeHasNoSlash(key: string)
    ensures '/' !in Escape(key)
  {
    if key != "" {
      EscapeHasNoSlash(key[1..]);
    }
  }

  /** Unescaping restores a key exactly when the key has no tilde: tildes are not escaped. */
  lemma {:induction false} EscapeExact(key: string)
    ensures '~' !in key ==> Unescape(Escape(key)) == Some(key)
    ensures '~' in key && Unescape(Escape(key)).Some? ==> |Unescape(Escape(key)).value| < |key|
  {
    if key != "" {
      var rest := key[1..];
      assert key == [key[0]] + rest;
      if key[0] == '/' {
        EscapeExact(rest);
        assert Escape(key)[2..] == Escape(rest);
      } else if key[0] != '~' {
        EscapeExact(rest);
        assert Escape(key)[1..] == Escape(rest);
      } else if rest != "" {
        EscapeExact(rest[1..]);
        assert Escape(key) == "~" + ((if rest[0] == '/' then "~1" else [rest[0]]) + Escape(rest[1..]));
        if rest[0] in "01" {
          assert Escape(key)[2..] == Escape(rest[1..]);
        }
      }
    }
  }

  /** Escaping changes only keys with a slash, and leaves a tilde in those. */
  lemma {:induction false} EscapePlain(key: string)
    ensures '/' !in key ==> Escape(key) == key
    ensures '/' in key ==> '~' in Escape(key)
  {
    if key != "" {
      EscapePlain(key[1..]);
      assert key == [key[0]] + key[1..];
    }
  }

  lemma SectionTokens(sec: Section)
    ensures '/' !in Tokens(sec).0 && '/' !in Tokens(sec).1
    ensures SectionOf(Tokens(sec).0, Tokens(sec).1) == Found(sec)
  {
  }

  /** The pointer formed for a key designates that key, exactly for keys that are not dots and have no tilde. */
  lemma PointerExact(sec: Section, key: string)
    ensures Resolve(PointerJoin(sec, Escape(key))) == Some((sec, key))
       <==> key !in ["", ".", ".."] && '~' !in key
  {
    hide Escape;
    hide Unescape;
    hide Split;
    hide Tokens;
    hide SectionOf;
    var token := Escape(key);
    EscapePlain(key);
    EscapeHasNoSlash(key);
    EscapeExact(key);
    SectionTokens(sec);
    var (a, b) := Tokens(sec);
    if token == "" || token == "." {
      SplitTwo(a, b);
    } else if token == ".." {
      SplitOne(a);
    } else {
      SplitThree(a, b, token);
    }
  }

  lemma TildeToken()
    ensures Escape("~1") == "~1" && Unescape("~1") == Some("/")
  {
    var token := "~1";
    assert token[1..] == "1" && "1"[1..] == "" && token[2..] == "";
    assert Escape("") == "" && Unescape("") == Some("");
    assert Escape("1") == ['1'] + Escape("") == "1";
    assert Escape(token) == ['~'] + Escape("1") == token;
    assert token[1] == '1' && '1' == "01"[1];
    assert Unescape(token) == Some("/" + "");
    assert "/" + "" == "/";
  }

  /** The key `~1` is taken for a slash. */
  lemma TildeKeyElsewhere(sec: Section)
    ensures Resolve(PointerJoin(sec, Escape("~1"))) == Some((sec, "/"))
  {
    hide Escape;
    hide Unescape;
    hide Split;
    hide Tokens;
    hide SectionOf;
    TildeToken();
    SectionTokens(sec);
    var token := Escape("~1");
    assert '/' !in token && |token| == 2 && token[0] == '~';
    SplitThree(Tokens(sec).0, Tokens(sec).1, token);
  }

  lemma SplitOne(a: string)
    requires '/' !in a
    ensures Split("/" + a, '/') == ["", a]
  {
    assert "/" + a == "" + ['/'] + a;
    SplitAtSeparator("", a, '/');
    SplitPlain(a, '/');
  }

  lemma SplitTwo(a: string, b: string)
    requires '/' !in a && '/' !in b
    ensures Split("/" + a + "/" + b, '/') == ["", a, b]
  {
    assert "/" + a + "/" + b == "" + ['/'] + (a + ['/'] + b);
    SplitAtSeparator("", a + ['/'] + b, '/');
    SplitAtSeparator(a, b, '/');
    SplitPlain(b, '/');
  }

  lemma SplitThree(a: string, b: string, c: string)
    requires '/' !in a && '/' !in b && '/' !in c
    ensures Split("/" + a + "/" + b + "/" + c, '/') == ["", a, b, c]
  {
    assert "/" + a + "/" + b + "/" + c == "" + ['/'] + (a + ['/'] + (b + ['/'] + c));
    SplitAtSeparator("", a + ['/'] + (b + ['/'] + c), '/');
    SplitAtSeparator(a, b + ['/'] + c, '/');
    SplitAtSeparator(b, c, '/');
    SplitPlain(c, '/');
  }

  /** Validated keys are never misdirected. */
  lemma ValidatedPointer(sec: Section, key: string)
    requires TrackableKey(key)
    ensures Resolve(PointerJoin(sec, Escape(key))) == Some((sec, key))
  {
    var (ns, name) := SplitNs(key);
    forall c | c in key ensures c != '~' {
      assert c in ns || c == '/' || c in name;
    }
    PointerExact(sec, key);
  }

  // ----- Applying operations -----

  type Items = Pairs

  /** Sections 4.1 to 4.3: remove and replace need the target, add and replace a value member. */
  function ApplyOp(m: Items, op: Op): Option<Items> {
    match op.verb
    case Add => if op.value == "" then None else Some(m[op.key := op.value])
    case Replace => if op.value == "" || op.key !in m then None else Some(m[op.key := op.value])
    case Remove => if op.key !in m then None else Some(m - {op.key})
  }

  /** A patch list applies as a whole or not at all. */
  function ApplyOps(m: Items, ops: seq<Op>): Option<Items>
    decreases ops
  {
    if ops == [] then Some(m)
    else
      match ApplyOp(m, ops[0])
      case None => None
      case Some(m') => ApplyOps(m', ops[1..])
  }

  lemma {:induction false} ApplyConcat(m: Items, a: seq<Op>, b: seq<Op>)
    ensures ApplyOps(m, a + b) == match ApplyOps(m, a) case None => None case Some(m') => ApplyOps(m', b)
    decreases a
  {
    if a == [] {
      assert a + b == b;
    } else {
      assert (a + b)[0] == a[0] && (a + b)[1..] == a[1..] + b;
      match ApplyOp(m, a[0])
      case None =>
      case Some(m') => ApplyConcat(m', a[1..], b);
    }
  }

  // ----- createPatches -----

  /** The keys to remove that are present and no longer wanted, in order, with repetitions. */
  function ToRemove(removeKeys: seq<string>, have: Items, want: Items): seq<string> {
    if removeKeys == [] then []
    else
      (if removeKeys[0] in have && removeKeys[0] !in want then [removeKeys[0]] else [])
      + ToRemove(removeKeys[1..], have, want)
  }

  function Removes(keys: seq<string>): (ops: seq<Op>)
    ensures |ops| == |keys| && forall i | 0 <= i < |keys| :: ops[i] == Op(Remove, keys[i], "")
  {
    seq(|keys|, i requires 0 <= i < |keys| => Op(Remove, keys[i], ""))
  }

  function Upsert(key: string, have: Items, want: Items): Op
    requires key in want
  {
    Op(if key in have then Replace else Add, key, want[key])
  }

  function Upserts(keys: seq<string>, have: Items, want: Items): (ops: seq<Op>)
    requires Elems(keys) <= want.Keys
  {
    if keys == [] then []
    else
      assert keys[0] in Elems(keys);
      assert Elems(keys[1..]) <= Elems(keys);
      [Upsert(keys[0], have, want)] + Upserts(keys[1..], have, want)
  }

  /** The wanted items that are missing or have another value. */
  function Changed(have: Items, want: Items): set<string> {
    set k | k in want && (k !in have || have[k] != want[k])
  }

  /** The patch list, given the order in which the new items were visited. */
  function PatchList(removeKeys: seq<string>, have: Items, want: Items, order: seq<string>): seq<Op>
    requires Elems(order) <= want.Keys
  {
    Removes(ToRemove(removeKeys, have, want)) + Upserts(order, have, want)
  }

  method CreatePatches(removeKeys: seq<string>, oldItems: Items, newItems: Items)
    returns (patches: seq<Op>, ghost order: seq<string>)
    ensures Enumerates(order, Changed(oldItems, newItems))
    ensures patches == PatchList(removeKeys, oldItems, newItems, order)
  {
    patches := ItemsToRemove(removeKeys, oldItems, newItems);
    var writes;
    writes, order := ItemsToWrite(oldItems, newItems);
    patches := patches + writes;
  }

  /** The first loop of createPatches. */
  method ItemsToRemove(removeKeys: seq<string>, oldItems: Items, newItems: Items) returns (patches: seq<Op>)
    ensures patches == Removes(ToRemove(removeKeys, oldItems, newItems))
  {
    patches := [];
    var i := 0;
    assert removeKeys[0..] == removeKeys;
    while i < |removeKeys|
      invariant 0 <= i <= |removeKeys|
      invariant patches + Removes(ToRemove(removeKeys[i..], oldItems, newItems))
             == Removes(ToRemove(removeKeys, oldItems, newItems))
    {
      var key := removeKeys[i];
      assert removeKeys[i..][1..] == removeKeys[i + 1..];
      ghost var rest := ToRemove(removeKeys[i + 1..], oldItems, newItems);
      if key in oldItems && key !in newItems {
        assert Removes([key] + rest) == [Op(Remove, key, "")] + Removes(rest);
        patches := patches + [Op(Remove, key, "")];
      } else {
        assert [] + rest == rest;
      }
      i := i + 1;
    }
  }

  /** The second loop of createPatches, in whatever order Go ranges over the new items. */
  method ItemsToWrite(oldItems: Items, newItems: Items) returns (patches: seq<Op>, ghost order: seq<string>)
    ensures Enumerates(order, Changed(oldItems, newItems))
    ensures patches == Upserts(order, oldItems, newItems)
  {
    hide Upserts;
    patches := [];
    order := [];
    UpsertsNone(oldItems, newItems);
    var todo := newItems.Keys;
    while todo != {}
      invariant todo <= newItems.Keys
      invariant NoDuplicates(order)
      invariant Elems(order) == Changed(oldItems, newItems) - todo
      invariant patches == Upserts(order, oldItems, newItems)
      decreases todo
    {
      var key :| key in todo;
      if key !in oldItems || newItems[key] != oldItems[key] {
        UpsertsAppend(order, key, oldItems, newItems);
        patches := patches + [Upsert(key, oldItems, newItems)];
        assert key !in order by { assert key in order ==> key in Elems(order); }
        assert Elems(order + [key]) == Elems(order) + {key};
        order := order + [key];
      }
      todo := todo - {key};
    }
  }

  lemma UpsertsNone(have: Items, want: Items)
    ensures Elems<string>([]) <= want.Keys && Upserts([], have, want) == []
  {
  }

  lemma {:induction false} UpsertsAppend(keys: seq<string>, k: string, have: Items, want: Items)
    requires Elems(keys) <= want.Keys && k in want
    ensures Elems(keys + [k]) <= want.Keys
    ensures Upserts(keys + [k], have, want) == Upserts(keys, have, want) + [Upsert(k, have, want)]
    decreases keys
  {
    if keys == [] {
      assert keys + [k] == [k];
    } else {
      assert keys[0] in Elems(keys);
      assert Elems(keys[1..]) <= Elems(keys);
      UpsertsAppend(keys[1..], k, have, want);
      assert (keys + [k])[1..] == keys[1..] + [k];
    }
  }

  // ----- When the list applies, and to what -----

  lemma {:induction false} RemovesApply(m: Items, keys: seq<string>)
    requires Elems(keys) <= m.Keys
    ensures ApplyOps(m, Removes(keys)) == if NoDuplicates(keys) then Some(m - Elems(keys)) else None
    decreases keys
  {
    if keys == [] {
      assert m - Elems(keys) == m;
    } else {
      var k, rest := keys[0], keys[1..];
      assert k in Elems(keys);
      assert Removes(keys)[1..] == Removes(rest);
      if k in rest {
        var i :| 0 <= i < |rest| && rest[i] == k;
        assert keys[0] == keys[i + 1];
        RemoveMissing(m - {k}, rest, i);
      } else {
        assert Elems(rest) <= (m - {k}).Keys;
        RemovesApply(m - {k}, rest);
        assert Elems(keys) == {k} + Elems(rest);
        assert m - {k} - Elems(rest) == m - Elems(keys);
        NoDuplicatesTail(keys);
      }
    }
  }

  lemma NoDuplicatesTail(keys: seq<string>)
    requires keys != [] && keys[0] !in keys[1..]
    ensures NoDuplicates(keys) <==> NoDuplicates(keys[1..])
  {
    var rest := keys[1..];
    if NoDuplicates(rest) {
      forall i, j | 0 <= i < j < |keys| ensures keys[i] != keys[j] {
        assert keys[j] == rest[j - 1];
        if i > 0 {
          assert keys[i] == rest[i - 1];
        }
      }
    }
    if NoDuplicates(keys) {
      forall i, j | 0 <= i < j < |rest| ensures rest[i] != rest[j] {
        assert keys[i + 1] == rest[i] && keys[j + 1] == rest[j];
      }
    }
  }

  /** A list that removes an absent key does not apply. */
  lemma {:induction false} RemoveMissing(m: Items, keys: seq<string>, i: nat)
    requires i < |keys| && keys[i] !in m
    ensures ApplyOps(m, Removes(keys)) == None
    decreases keys
  {
    assert Removes(keys)[1..] == Removes(keys[1..]);
    if i > 0 && keys[0] in m {
      RemoveMissing(m - {keys[0]}, keys[1..], i - 1);
    }
  }

  ghost function Pick(m: Items, keys: set<string>): Items {
    map k | k in keys && k in m :: m[k]
  }

  lemma PickNone(m: Items, want: Items)
    ensures m + Pick(want, Elems([])) == m
  {
  }

  lemma PickMore(m: Items, want: Items, k: string, rest: set<string>)
    requires k in want
    ensures m[k := want[k]] + Pick(want, rest) == m + Pick(want, {k} + rest)
  {
  }

  lemma {:induction false} UpsertsApply(m: Items, keys: seq<string>, have: Items, want: Items)
    requires Elems(keys) <= want.Keys
    requires forall k | k in keys && k in have :: k in m
    ensures ApplyOps(m, Upserts(keys, have, want))
         == if forall k | k in keys :: want[k] != ""
            then Some(m + Pick(want, Elems(keys))) else None
    decreases keys
  {
    hide Pick;
    if keys == [] {
      PickNone(m, want);
    } else {
      var k, rest := keys[0], keys[1..];
      assert k in Elems(keys);
      assert Elems(keys) == {k} + Elems(rest);
      assert Upserts(keys, have, want)[1..] == Upserts(rest, have, want);
      var m' := m[k := want[k]];
      UpsertsApply(m', rest, have, want);
      assert ApplyOp(m, Upsert(k, have, want)) == if want[k] == "" then None else Some(m');
      PickMore(m, want, k, Elems(rest));
      assert (forall x | x in keys :: want[x] != "") <==> want[k] != "" && (forall x | x in rest :: want[x] != "");
    }
  }

  lemma {:induction false} ToRemoveElems(removeKeys: seq<string>, have: Items, want: Items)
    ensures Elems(ToRemove(removeKeys, have, want)) == Elems(removeKeys) * have.Keys - want.Keys
  {
    if removeKeys != [] {
      ToRemoveElems(removeKeys[1..], have, want);
      assert Elems(removeKeys) == {removeKeys[0]} + Elems(removeKeys[1..]);
      var head := if removeKeys[0] in have && removeKeys[0] !in want then [removeKeys[0]] else [];
      assert Elems(head + ToRemove(removeKeys[1..], have, want))
          == Elems(head) + Elems(ToRemove(removeKeys[1..], have, want));
    }
  }

  /** What makes a patch list acceptable: no key removed twice, and no write of an empty value. */
  ghost predicate Acceptable(removeKeys: seq<string>, have: Items, want: Items) {
    && NoDuplicates(ToRemove(removeKeys, have, want))
    && forall k | k in Changed(have, want) :: want[k] != ""
  }

  /**
  In whatever order the items are visited, the list applies exactly when it is
  acceptable, and then yields the old items without the removed ones, overlaid
  with the new.
  */
  lemma PatchListApplies(removeKeys: seq<string>, have: Items, want: Items, order: seq<string>)
    requires Enumerates(order, Changed(have, want))
    ensures ApplyOps(have, PatchList(removeKeys, have, want, order))
         == if Acceptable(removeKeys, have, want) then Some(have - Elems(removeKeys) + want) else None
  {
    hide ApplyOps;
    hide Upserts;
    hide ToRemove;
    var gone := ToRemove(removeKeys, have, want);
    ToRemoveElems(removeKeys, have, want);
    RemovesApply(have, gone);
    ApplyConcat(have, Removes(gone), Upserts(order, have, want));
    if NoDuplicates(gone) {
      var kept := have - Elems(gone);
      forall k | k in order && k in have ensures k in kept {
        assert k in Elems(order);
      }
      UpsertsApply(kept, order, have, want);
      assert (forall k | k in order :: want[k] != "") <==> (forall k | k in Changed(have, want) :: want[k] != "") by {
        assert forall k :: k in order <==> k in Elems(order);
      }
      assert kept + Pick(want, Elems(order)) == have - Elems(removeKeys) + want;
    }
  }

  /** The list is empty exactly when nothing is to be removed or written. */
  lemma PatchListEmpty(removeKeys: seq<string>, have: Items, want: Items, order: seq<string>)
    requires Enumerates(order, Changed(have, want))
    ensures PatchList(removeKeys, have, want, order) == []
       <==> Elems(removeKeys) * have.Keys <= want.Keys && Changed(have, want) == {}
  {
    var gone := ToRemove(removeKeys, have, want);
    ToRemoveElems(removeKeys, have, want);
    ElemsEmpty(gone);
    ElemsEmpty(order);
    assert |PatchList(removeKeys, have, want, order)| == |gone| + |Upserts(order, have, want)|;
    assert Upserts(order, have, want) == [] <==> order == [];
    if Elems(gone) == {} {
      forall x | x in Elems(removeKeys) * have.Keys ensures x in want.Keys {
        assert x !in Elems(gone);
      }
    }
  }

  // ----- Pointers spelled out -----

  lemma {:induction false} EscapeOne(ns: string, name: string)
    requires '/' !in ns && '/' !in name
    ensures Escape(ns + "/" + name) == ns + "~1" + name
    decreases ns
  {
    var key := ns + "/" + name;
    if ns == "" {
      assert key[1..] == name;
      EscapePlain(name);
    } else {
      assert key[1..] == ns[1..] + "/" + name && key[0] == ns[0] && ns[0] in ns;
      EscapeOne(ns[1..], name);
      assert [ns[0]] + ns[1..] == ns;
    }
  }

  /** The paths of the four sections, with the slash of the key escaped. */
  lemma PathsSpelled(verb: Verb, ns: string, name: string, value: string)
    requires '/' !in ns && '/' !in name
    ensures var key, token := ns + "/" + name, ns + "~1" + name;
      && NewJsonPatch(verb, Labels, key, value) == JsonPatch(verb, "/metadata/labels/" + token, value)
      && NewJsonPatch(verb, Annotations, key, value) == JsonPatch(verb, "/metadata/annotations/" + token, value)
      && NewJsonPatch(verb, Capacity, key, value) == JsonPatch(verb, "/status/capacity/" + token, value)
      && NewJsonPatch(verb, Allocatable, key, value) == JsonPatch(verb, "/status/allocatable/" + token, value)
  {
    hide Escape;
    EscapeOne(ns, name);
    var token := ns + "~1" + name;
    assert token[|ns|] == '~';
    assert token !in ["", ".", ".."];
    assert "/" + "metadata" + "/" + "labels" + "/" == "/metadata/labels/";
    assert "/" + "metadata" + "/" + "annotations" + "/" == "/metadata/annotations/";
    assert "/" + "status" + "/" + "capacity" + "/" == "/status/capacity/";
    assert "/" + "status" + "/" + "allocatable" + "/" == "/status/allocatable/";
  }
}
