/**
Namespaced names: validation of keys, default namespaces, and the tracking
annotations in which nfd-master records the names it owns on a node.
*/
module Names {
  import opened Basics
  import opened Ordering

  const FEATURE_NS := "feature.node.kubernetes.io"
  const FEATURE_SUB_NS_SUFFIX := "." + FEATURE_NS
  const PROFILE_NS := "profile.node.kubernetes.io"
  const PROFILE_SUB_NS_SUFFIX := "." + PROFILE_NS

  /** Labels, annotations, variables or extended resources: names with their values. */
  type Pairs = map<string, string>

  // ----- Sorting strings -----

  predicate LessChar(a: char, b: char) {
    a < b
  }

  predicate LessString(a: string, b: string) {
    LexLess(LessChar, a, b)
  }

  lemma StringOrder()
    ensures StrictTotal(LessString)
  {
    assert StrictTotal(LessChar);
    forall a: string ensures !LessString(a, a) { LexIrreflexive(LessChar, a); }
    forall a: string, b: string, c: string | LessString(a, b) && LessString(b, c) ensures LessString(a, c) {
      LexTransitive(LessChar, a, b, c);
    }
    forall a: string, b: string ensures a == b || LessString(a, b) || LessString(b, a) {
      LexTotal(LessChar, a, b);
    }
  }

  ghost function SortedNames(s: set<string>): (r: seq<string>)
    ensures Sorted(LessString, r) && Elems(r) == s
  {
    StringOrder();
    SortedKeys(LessString, s)
  }

  // ----- strings.Split and strings.Join -----

  function Split(s: string, sep: char): (parts: seq<string>)
    ensures |parts| > 0
  {
    if s == "" then [""]
    else
      var rest := Split(s[1..], sep);
      if s[0] == sep then [""] + rest else [[s[0]] + rest[0]] + rest[1..]
  }

  function Join(parts: seq<string>, sep: char): string {
    if parts == [] then ""
    else if |parts| == 1 then parts[0]
    else parts[0] + [sep] + Join(parts[1..], sep)
  }

  lemma {:induction false} SplitPlain(s: string, sep: char)
    requires sep !in s
    ensures Split(s, sep) == [s]
  {
    if s != "" {
      SplitPlain(s[1..], sep);
      assert [s[0]] + s[1..] == s;
    }
  }

  lemma {:induction false} SplitAtSeparator(a: string, b: string, sep: char)
    requires sep !in a
    ensures Split(a + [sep] + b, sep) == [a] + Split(b, sep)
    decreases |a|
  {
    var s := a + [sep] + b;
    if a == "" {
      assert s[1..] == b;
    } else {
      SplitAtSeparator(a[1..], b, sep);
      assert s[1..] == a[1..] + [sep] + b;
      assert [a[0]] + a[1..] == a;
    }
  }

  lemma {:induction false} SplitJoin(parts: seq<string>, sep: char)
    requires parts != [] && forall p | p in parts :: sep !in p
    ensures Split(Join(parts, sep), sep) == parts
  {
    if |parts| == 1 {
      SplitPlain(parts[0], sep);
    } else {
      SplitJoin(parts[1..], sep);
      SplitAtSeparator(parts[0], Join(parts[1..], sep), sep);
      assert [parts[0]] + parts[1..] == parts;
    }
  }

  lemma JoinNonEmpty(parts: seq<string>, sep: char)
    requires parts != [] && parts[0] != ""
    ensures Join(parts, sep) != ""
  {
  }

  // ----- Namespaces -----

  /** path.Join of a namespace and a name without a slash, cleaned as Go's path.Clean does. */
  function JoinNs(ns: string, name: string): string {
    if name == "" || name == "." then ns
    else if name == ".." then "."
    else ns + "/" + name
  }

  function AddNs(src: string, ns: string): string {
    if '/' in src then src else JoinNs(ns, src)
  }

  /** strings.SplitN(fullname, "/", 2), with an empty namespace when there is no slash. */
  function SplitNs(fullname: string): (r: (string, string))
    ensures '/' !in fullname ==> r == ("", fullname)
    ensures '/' in fullname ==> fullname == r.0 + "/" + r.1 && '/' !in r.0
  {
    if '/' !in fullname then ("", fullname)
    else if fullname[0] == '/' then ("", fullname[1..])
    else
      var (ns, name) := SplitNs(fullname[1..]);
      ([fullname[0]] + ns, name)
  }

  predicate HasSuffix(s: string, suffix: string) {
    |suffix| <= |s| && s[|s| - |suffix|..] == suffix
  }

  predicate HasPrefix(s: string, prefix: string) {
    prefix <= s
  }

  function TrimPrefix(s: string, prefix: string): string {
    if HasPrefix(s, prefix) then s[|prefix|..] else s
  }

  // ----- Validation -----

  predicate Alphanumeric(c: char) {
    'a' <= c <= 'z' || 'A' <= c <= 'Z' || '0' <= c <= '9'
  }

  predicate NameChar(c: char) {
    Alphanumeric(c) || c == '-' || c == '_' || c == '.'
  }

  /** ([A-Za-z0-9][-A-Za-z0-9_.]*)?[A-Za-z0-9] */
  predicate PlainName(s: string) {
    && s != ""
    && (forall c | c in s :: NameChar(c))
    && Alphanumeric(s[0]) && Alphanumeric(s[|s| - 1])
  }

  /**
  The contract of k8s IsQualifiedName that the program relies on: a name, or a
  DNS prefix, a slash and a name. Length limits are not part of it.
  */
  predicate QualifiedName(key: string) {
    var (ns, name) := SplitNs(key);
    PlainName(name) && ('/' in key ==> PlainName(ns))
  }

  predicate KubernetesNs(ns: string) {
    ns == "kubernetes.io" || HasSuffix(ns, ".kubernetes.io")
  }

  predicate FeatureNs(ns: string) {
    ns == FEATURE_NS || HasSuffix(ns, FEATURE_SUB_NS_SUFFIX)
  }

  /** The key checks of validate.Label. */
  predicate LabelKey(key: string) {
    var ns := SplitNs(key).0;
    && QualifiedName(key) && ns != ""
    && (KubernetesNs(ns) ==> FeatureNs(ns) || ns == PROFILE_NS || HasSuffix(ns, PROFILE_SUB_NS_SUFFIX))
  }

  /** The key checks of validate.Annotation and validate.ExtendedResource. */
  predicate FeatureKey(key: string) {
    var ns := SplitNs(key).0;
    QualifiedName(key) && ns != "" && (KubernetesNs(ns) ==> FeatureNs(ns))
  }

  /** What tracking needs of a key: any validated key has it. */
  predicate TrackableKey(key: string) {
    QualifiedName(key) && '/' in key
  }

  lemma ValidatedKeysTrackable(key: string)
    requires LabelKey(key) || FeatureKey(key)
    ensures TrackableKey(key)
  {
  }

  // ----- Tracking annotations -----

  /** The name under which a key is recorded: the default namespace is dropped. */
  function TrackedName(key: string): string {
    TrimPrefix(key, FEATURE_NS + "/")
  }

  /** Recording a validated key and reading it back. */
  lemma TrackedNameInverse(key: string)
    requires TrackableKey(key)
    ensures AddNs(TrackedName(key), FEATURE_NS) == key
    ensures TrackedName(key) != "" && ',' !in TrackedName(key)
  {
    var (ns, name) := SplitNs(key);
    assert key == ns + "/" + name;
    SlashOnce(ns, name);
    var prefix := FEATURE_NS + "/";
    if HasPrefix(key, prefix) {
      assert key[|FEATURE_NS|] == '/';
      assert |ns| == |FEATURE_NS|;
      assert TrackedName(key) == name;
      assert FEATURE_NS + "/" + name == key;
    }
    forall c | c in key ensures c != ',' {
      assert c in ns || c == '/' || c in name;
    }
  }

  lemma SlashOnce(ns: string, name: string)
    requires '/' !in ns && '/' !in name
    ensures forall i | 0 <= i < |ns + "/" + name| :: (ns + "/" + name)[i] == '/' <==> i == |ns|
  {
    var s := ns + "/" + name;
    forall i | 0 <= i < |s| ensures s[i] == '/' <==> i == |ns| {
      if i < |ns| {
        assert s[i] == ns[i] && ns[i] in ns;
      } else if i > |ns| {
        assert s[i] == name[i - |ns| - 1] && name[i - |ns| - 1] in name;
      }
    }
  }

  ghost function TrackedNames(keys: set<string>): set<string> {
    set k | k in keys :: TrackedName(k)
  }

  /** The value of a tracking annotation. */
  ghost function Track(keys: set<string>): string {
    Join(SortedNames(TrackedNames(keys)), ',')
  }

  function NsNames(names: seq<string>): (r: seq<string>)
    ensures |r| == |names| && forall i | 0 <= i < |r| :: r[i] == AddNs(names[i], FEATURE_NS)
  {
    seq(|names|, i requires 0 <= i < |names| => AddNs(names[i], FEATURE_NS))
  }

  /** stringToNsNames with the default namespace. */
  function Untrack(cslist: string): seq<string> {
    if cslist == "" then [] else NsNames(Split(cslist, ','))
  }

  /** Names recorded for distinct keys turn back into those keys, each once. */
  lemma NsNamesOf(names: seq<string>, keys: set<string>)
    requires Sorted(LessString, names) && Elems(names) == TrackedNames(keys)
    requires forall k | k in keys :: AddNs(TrackedName(k), FEATURE_NS) == k
    ensures NoDuplicates(NsNames(names)) && Elems(NsNames(names)) == keys
  {
    hide TrackedName;
    hide LessString;
    hide AddNs;
    StringOrder();
    var back := NsNames(names);
    forall i | 0 <= i < |names| ensures back[i] in keys && TrackedName(back[i]) == names[i] {
      assert names[i] in Elems(names);
    }
    forall k | k in keys ensures k in back {
      assert TrackedName(k) in Elems(names);
      var i :| 0 <= i < |names| && names[i] == TrackedName(k);
      assert back[i] == k;
    }
    forall i, j | 0 <= i < j < |back| ensures back[i] != back[j] {
      assert LessString(names[i], names[j]) && !LessString(names[i], names[i]);
    }
  }

  lemma JoinedNames(names: seq<string>)
    requires names != [] && forall p | p in names :: p != "" && ',' !in p
    ensures Join(names, ',') != "" && Untrack(Join(names, ',')) == NsNames(names)
  {
    SplitJoin(names, ',');
    assert names[0] in names;
    JoinNonEmpty(names, ',');
  }

  /** Reading a tracking annotation back yields exactly the recorded keys, each once. */
  lemma TrackingFaithful(keys: set<string>)
    requires forall k | k in keys :: TrackableKey(k)
    ensures NoDuplicates(Untrack(Track(keys))) && Elems(Untrack(Track(keys))) == keys
    ensures Track(keys) == "" <==> keys == {}
  {
    hide QualifiedName;
    hide TrackedName;
    hide LessString;
    hide AddNs;
    hide NsNames;
    hide Split;
    var names := SortedNames(TrackedNames(keys));
    forall k | k in keys
      ensures AddNs(TrackedName(k), FEATURE_NS) == k && TrackedName(k) != "" && ',' !in TrackedName(k)
    {
      TrackedNameInverse(k);
    }
    ElemsEmpty(names);
    if keys != {} {
      var k0 :| k0 in keys;
      assert TrackedName(k0) in Elems(names);
      forall p | p in names ensures p != "" && ',' !in p {
        assert p in Elems(names);
      }
      NsNamesOf(names, keys);
      JoinedNames(names);
    }
  }

  /** Two validated key sets with the same annotation are equal. */
  lemma TrackingInjective(a: set<string>, b: set<string>)
    requires forall k | k in a :: TrackableKey(k)
    requires forall k | k in b :: TrackableKey(k)
    requires Track(a) == Track(b)
    ensures a == b
  {
    hide Track;
    TrackingFaithful(a);
    TrackingFaithful(b);
  }

  /** The loop that collects the names of a map's keys, sorts and joins them. */
  method TrackingValue(keys: set<string>) returns (s: string)
    requires forall k | k in keys :: TrackableKey(k)
    ensures s == Track(keys)
  {
    hide LessString;
    hide QualifiedName;
    hide TrackedName;
    StringOrder();
    var names: seq<string> := [];
    var todo := keys;
    while todo != {}
      invariant todo <= keys
      invariant Sorted(LessString, names) && Elems(names) == TrackedNames(keys - todo)
      decreases todo
    {
      var k :| k in todo;
      var name := TrackedName(k);
      assert name !in names by {
        if name in names {
          assert name in Elems(names);
          var k' :| k' in keys - todo && TrackedName(k') == name;
          TrackedNameInverse(k);
          TrackedNameInverse(k');
        }
      }
      InsertSorted(LessString, name, names);
      InsertElems(LessString, name, names);
      names := Insert(LessString, name, names);
      assert TrackedNames(keys - todo + {k}) == TrackedNames(keys - todo) + {name};
      assert keys - (todo - {k}) == keys - todo + {k};
      todo := todo - {k};
    }
    assert keys - {} == keys;
    SortedUnique(LessString, names, SortedNames(TrackedNames(keys)));
    s := Join(names, ',');
  }

  // ----- What the annotation says -----

  /** The part behind the slash for a key in the default namespace, and else the whole key. */
  function ShortName(key: string): string {
    var (ns, name) := SplitNs(key);
    if ns == "feature.node.kubernetes.io" then name else key
  }

  lemma DefaultNsPrefix(ns: string, name: string)
    requires '/' !in ns && '/' !in name
    ensures HasPrefix(ns + "/" + name, FEATURE_NS + "/") <==> ns == FEATURE_NS
  {
    var key, prefix := ns + "/" + name, FEATURE_NS + "/";
    SlashOnce(ns, name);
    if HasPrefix(key, prefix) {
      assert key[|FEATURE_NS|] == prefix[|FEATURE_NS|] == '/';
      assert ns == key[..|ns|] == prefix[..|ns|];
    }
    if ns == FEATURE_NS {
      assert key[..|prefix|] == prefix;
    }
  }

  lemma TrackedNameIsShort(key: string)
    requires TrackableKey(key)
    ensures TrackedName(key) == ShortName(key)
  {
    var (ns, name) := SplitNs(key);
    assert key == ns + "/" + name;
    DefaultNsPrefix(ns, name);
    if ns == FEATURE_NS {
      assert key[|FEATURE_NS| + 1..] == name;
    }
  }

  /** The annotation is the comma-separated list of the short names in ascending order. */
  lemma TrackedList(keys: set<string>)
    requires keys != {} && forall k | k in keys :: TrackableKey(k)
    ensures Sorted(LessString, Split(Track(keys), ','))
    ensures Elems(Split(Track(keys), ',')) == set k | k in keys :: ShortName(k)
  {
    hide QualifiedName;
    hide TrackedName;
    hide ShortName;
    hide LessString;
    hide Split;
    var names := SortedNames(TrackedNames(keys));
    forall k | k in keys ensures TrackedName(k) == ShortName(k) && ',' !in TrackedName(k) {
      TrackedNameIsShort(k);
      TrackedNameInverse(k);
    }
    forall p | p in names ensures ',' !in p {
      assert p in Elems(names);
    }
    ElemsEmpty(names);
    var k0 :| k0 in keys;
    assert TrackedName(k0) in TrackedNames(keys);
    SplitJoin(names, ',');
    assert TrackedNames(keys) == set k | k in keys :: ShortName(k);
  }

  /** Strings are compared character by character, and a proper prefix comes first. */
  lemma StringsCompared(a: string, b: string)
    ensures LessString(a, b) <==>
      exists i :: 0 <= i < |b| && i <= |a| && a[..i] == b[..i] && (i == |a| || a[i] < b[i])
  {
    LexMeans(LessChar, a, b);
    if LessString(a, b) {
      var i :| LessAt(LessChar, a, b, i);
      assert 0 <= i < |b| && i <= |a| && a[..i] == b[..i] && (i == |a| || a[i] < b[i]);
    }
    if i :| 0 <= i < |b| && i <= |a| && a[..i] == b[..i] && (i == |a| || a[i] < b[i]) {
      assert LessAt(LessChar, a, b, i);
    }
  }

  // ----- Which keys are accepted -----

  lemma {:induction false} SplitNsOf(ns: string, name: string)
    requires '/' !in ns
    ensures SplitNs(ns + "/" + name) == (ns, name)
    decreases ns
  {
    var s := ns + "/" + name;
    assert s[|ns|] == '/' && '/' in s;
    if ns == "" {
      assert s[1..] == name;
    } else {
      SplitNsOf(ns[1..], name);
      assert s[1..] == ns[1..] + "/" + name;
      assert [ns[0]] + ns[1..] == ns;
    }
  }

  /** The namespace is Kubernetes' own. */
  predicate Reserved(ns: string) {
    ns == "kubernetes.io" || HasSuffix(ns, ".kubernetes.io")
  }

  predicate IsOrBelow(ns: string, top: string) {
    ns == top || HasSuffix(ns, "." + top)
  }

  /**
  Keys in a namespace of Kubernetes are refused, except below the feature
  namespace and, for labels, below the profile namespace; so are keys without
  a namespace. All others are accepted.
  */
  lemma AcceptedKeys(ns: string, name: string)
    requires PlainName(ns) && PlainName(name)
    ensures LabelKey(ns + "/" + name) <==>
      || !Reserved(ns)
      || IsOrBelow(ns, "feature.node.kubernetes.io") || IsOrBelow(ns, "profile.node.kubernetes.io")
    ensures FeatureKey(ns + "/" + name) <==> !Reserved(ns) || IsOrBelow(ns, "feature.node.kubernetes.io")
    ensures !LabelKey(name) && !FeatureKey(name)
  {
    hide PlainName;
    hide HasSuffix;
    PlainNoSlash(ns);
    PlainNoSlash(name);
    SplitNsOf(ns, name);
    assert (ns + "/" + name)[|ns|] == '/';
    Suffixes();
  }

  lemma PlainNoSlash(s: string)
    requires PlainName(s)
    ensures '/' !in s && s != ""
  {
  }

  lemma Suffixes()
    ensures FEATURE_SUB_NS_SUFFIX == "." + "feature.node.kubernetes.io"
    ensures PROFILE_SUB_NS_SUFFIX == "." + "profile.node.kubernetes.io"
  {
  }
}
