/** Order-independent comparison of JSON values by their canonical text. */
module Compare {
  import opened Text
  import opened Json
  import JsonLaws
  import opened Sorting

  // ---------------------------------------------------------------- order of names

  /** Position of a character in UTF-16 code unit order: astral characters sort at the surrogates. */
  function UnitRank(c: char): int {
    var n := c as int;
    if n < 0xD800 then n else if n >= 0x1_0000 then n - 0x1_0000 + 0xD800 else n - 0xE000 + 0x10_D800
  }

  /** `a < b` on strings. */
  predicate LessText(a: string, b: string) {
    b != "" && (a == "" || UnitRank(a[0]) < UnitRank(b[0])
                || (a[0] == b[0] && LessText(a[1..], b[1..])))
  }

  predicate ByKey(m: Member, n: Member) {
    LessText(m.key, n.key)
  }

  lemma {:induction false} LessTextTotal(a: string, b: string)
    ensures LessText(a, b) || LessText(b, a) || a == b
    ensures !(LessText(a, b) && LessText(b, a))
    ensures !LessText(a, a)
    decreases |a|
  {
    if a != "" {
      LessTextTotal(a[1..], a[1..]);
      if b != "" && a[0] == b[0] {
        LessTextTotal(a[1..], b[1..]);
        assert a == [a[0]] + a[1..] && b == [b[0]] + b[1..];
      }
    }
  }

  /** The UTF-16 code units of a text: one for each character below 0x10000, else a surrogate pair. */
  function Units(s: string): seq<int> {
    if s == "" then [] else UnitsOf(s[0]) + Units(s[1..])
  }

  function UnitsOf(c: char): seq<int> {
    var n := c as int;
    if n < 0x1_0000 then [n] else [0xD800 + (n - 0x1_0000) / 0x400, 0xDC00 + (n - 0x1_0000) % 0x400]
  }

  /** A proper beginning, or smaller at the first place where the two differ. */
  ghost predicate ComesBefore(a: seq<int>, b: seq<int>) {
    exists k | 0 <= k <= |a| && k <= |b| ::
      a[..k] == b[..k] && k < |b| && (k == |a| || a[k] < b[k])
  }

  lemma SharedStart(front: seq<int>, a: seq<int>, b: seq<int>)
    ensures ComesBefore(front + a, front + b) <==> ComesBefore(a, b)
  {
    hide ComesBefore;
    if ComesBefore(front + a, front + b) {
      WithoutStart(front, a, b);
    }
    if ComesBefore(a, b) {
      WithStart(front, a, b);
    }
  }

  lemma WithoutStart(front: seq<int>, a: seq<int>, b: seq<int>)
    requires ComesBefore(front + a, front + b)
    ensures ComesBefore(a, b)
  {
    var x, y := front + a, front + b;
    var k :| 0 <= k <= |x| && k <= |y| && x[..k] == y[..k] && k < |y| && (k == |x| || x[k] < y[k]);
    assert k >= |front|;
    var j := k - |front|;
    assert a[..j] == x[..k][|front|..] && b[..j] == y[..k][|front|..];
  }

  lemma WithStart(front: seq<int>, a: seq<int>, b: seq<int>)
    requires ComesBefore(a, b)
    ensures ComesBefore(front + a, front + b)
  {
    var x, y := front + a, front + b;
    var j :| 0 <= j <= |a| && j <= |b| && a[..j] == b[..j] && j < |b| && (j == |a| || a[j] < b[j]);
    var k := j + |front|;
    assert x[..k] == front + a[..j] && y[..k] == front + b[..j];
  }

  /** Different characters differ within their first code units. */
  lemma UnitsDiffer(c: char, d: char, a: seq<int>, b: seq<int>)
    requires c != d
    ensures ComesBefore(UnitsOf(c) + a, UnitsOf(d) + b) <==> UnitRank(c) < UnitRank(d)
  {
    var x, y := UnitsOf(c) + a, UnitsOf(d) + b;
    if x[0] != y[0] {
      FirstDiffers(x, y, 0);
    } else {
      assert x[1] != y[1];
      FirstDiffers(x, y, 1);
    }
  }

  lemma FirstDiffers(x: seq<int>, y: seq<int>, i: nat)
    requires i < |x| && i < |y| && x[..i] == y[..i] && x[i] != y[i]
    ensures ComesBefore(x, y) <==> x[i] < y[i]
  {
    if ComesBefore(x, y) {
      var k :| 0 <= k <= |x| && k <= |y| && x[..k] == y[..k] && k < |y| && (k == |x| || x[k] < y[k]);
      assert forall m :: 0 <= m < i ==> x[m] == x[..i][m] == y[..i][m] == y[m];
      assert forall m :: 0 <= m < k ==> x[m] == x[..k][m] == y[..k][m] == y[m];
      assert k == i;
    }
  }

  lemma NotBeforeNothing(a: seq<int>)
    ensures !ComesBefore(a, [])
    ensures a != [] ==> ComesBefore([], a)
  {
    assert [][..0] == a[..0];
  }

  /** One text is less than another exactly when its code units come before the other's. */
  lemma {:induction false} LessTextIff(a: string, b: string)
    ensures LessText(a, b) <==> ComesBefore(Units(a), Units(b))
    decreases |a|
  {
    hide UnitRank, UnitsOf, ComesBefore;
    NotBeforeNothing(Units(a));
    NotBeforeNothing(Units(b));
    SomeUnits(b);
    if a != "" && b != "" {
      if a[0] == b[0] {
        SharedStart(UnitsOf(a[0]), Units(a[1..]), Units(b[1..]));
        LessTextIff(a[1..], b[1..]);
        LessTextTotal(a, a);
      } else {
        UnitsDiffer(a[0], b[0], Units(a[1..]), Units(b[1..]));
      }
    }
  }

  lemma SomeUnits(s: string)
    ensures Units(s) == [] <==> s == ""
  {
  }

  lemma {:induction false} LessTextTransitive(a: string, b: string, c: string)
    requires LessText(a, b) && LessText(b, c)
    ensures LessText(a, c)
    decreases |a|
  {
    if a != "" && a[0] == b[0] && b[0] == c[0] {
      LessTextTransitive(a[1..], b[1..], c[1..]);
    }
  }

  lemma TextOrder()
    ensures WeakOrder(LessText)
  {
    forall a, b, c | LessText(a, b) && LessText(b, c) ensures LessText(a, c) {
      LessTextTransitive(a, b, c);
    }
    forall a, b, c | LessText(a, c) ensures LessText(a, b) || LessText(b, c) {
      LessTextTotal(a, b);
      if LessText(b, a) { LessTextTransitive(b, a, c); }
    }
    forall a: string ensures !LessText(a, a) {
      LessTextTotal(a, a);
    }
  }

  lemma KeyOrder()
    ensures WeakOrder(ByKey)
  {
    TextOrder();
    forall x, y, z | ByKey(x, z) ensures ByKey(x, y) || ByKey(y, z) {
      assert LessText(x.key, y.key) || LessText(y.key, z.key);
    }
    forall x, y, z | ByKey(x, y) && ByKey(y, z) ensures ByKey(x, z) {
      assert LessText(x.key, z.key);
    }
    forall x: Member ensures !ByKey(x, x) {
      assert !LessText(x.key, x.key);
    }
  }

  /** The members of an object, sorted by name, are the same members in increasing order. */
  lemma SortedMembers(ms: seq<Member>)
    requires DistinctKeys(ms)
    ensures Increasing(Sort(ms, ByKey), ByKey)
    ensures forall m :: m in Sort(ms, ByKey) <==> m in ms
  {
    KeyOrder();
    forall i, j | 0 <= i < j < |ms| ensures ByKey(ms[i], ms[j]) || ByKey(ms[j], ms[i]) {
      LessTextTotal(ms[i].key, ms[j].key);
    }
    SortIncreasing(ms, ByKey);
  }

  lemma SortKeepsMembers(ms: seq<Member>)
    ensures forall m :: m in Sort(ms, ByKey) <==> m in ms
  {
    KeyOrder();
    SortOrdered(ms, ByKey);
  }

  // ---------------------------------------------------------------- canonical text

  function StableStringify(v: Value): string
    decreases v, 1
  {
    match v
    case Array(items) => "[" + StableItems(items) + "]"
    case Object(ms) =>
      SortKeepsMembers(ms);
      "{" + StableMembers(v, Sort(ms, ByKey)) + "}"
    case _ => Print(v)
  }

  function StableItems(items: seq<Value>): string
    decreases items, 0
  {
    if items == [] then ""
    else if |items| == 1 then StableStringify(items[0])
    else StableStringify(items[0]) + "," + StableItems(items[1..])
  }

  /** The text of members of the object `v`, in the order given. */
  function StableMembers(v: Value, sorted: seq<Member>): string
    requires v.Object? && forall m :: m in sorted ==> m in v.members
    decreases v, 0, |sorted|
  {
    if sorted == [] then ""
    else
      assert sorted[0] in v.members;
      var first := Quote(sorted[0].key) + ":" + StableStringify(sorted[0].value);
      if |sorted| == 1 then first else first + "," + StableMembers(v, sorted[1..])
  }

  /** The value with the members of every object sorted by name. */
  function Canon(v: Value): Value
    decreases v, 1
  {
    match v
    case Array(items) => Array(CanonItems(items))
    case Object(ms) =>
      SortKeepsMembers(ms);
      Object(CanonMembers(v, Sort(ms, ByKey)))
    case _ => v
  }

  function CanonItems(items: seq<Value>): (r: seq<Value>)
    ensures |r| == |items| && forall i :: 0 <= i < |items| ==> r[i] == Canon(items[i])
    decreases items, 0
  {
    if items == [] then [] else [Canon(items[0])] + CanonItems(items[1..])
  }

  function CanonMembers(v: Value, sorted: seq<Member>): (r: seq<Member>)
    requires v.Object? && forall m :: m in sorted ==> m in v.members
    ensures |r| == |sorted|
    ensures forall i :: 0 <= i < |sorted| ==>
              sorted[i] in v.members && r[i] == Member(sorted[i].key, Canon(sorted[i].value))
    decreases v, 0, |sorted|
  {
    if sorted == [] then []
    else
      assert sorted[0] in v.members;
      [Member(sorted[0].key, Canon(sorted[0].value))] + CanonMembers(v, sorted[1..])
  }

  /** The stable text is the plain text of the sorted value. */
  lemma {:induction false} StableIsPrintOfCanon(v: Value)
    ensures StableStringify(v) == Print(Canon(v))
    decreases v, 1
  {
    match v
    case Array(items) => StableItemsPrint(items);
    case Object(ms) =>
      SortKeepsMembers(ms);
      StableMembersPrint(v, Sort(ms, ByKey));
    case _ =>
  }

  lemma {:induction false} StableItemsPrint(items: seq<Value>)
    ensures StableItems(items) == PrintItems(CanonItems(items))
    decreases items, 0
  {
    if items != [] {
      StableIsPrintOfCanon(items[0]);
      StableItemsPrint(items[1..]);
    }
  }

  lemma {:induction false} StableMembersPrint(v: Value, sorted: seq<Member>)
    requires v.Object? && forall m :: m in sorted ==> m in v.members
    ensures StableMembers(v, sorted) == PrintMembers(CanonMembers(v, sorted))
    decreases v, 0, |sorted|
  {
    if sorted != [] {
      assert sorted[0] in v.members;
      StableIsPrintOfCanon(sorted[0].value);
      StableMembersPrint(v, sorted[1..]);
    }
  }

  lemma {:induction false} CanonValid(v: Value)
    requires Valid(v)
    ensures Valid(Canon(v))
    decreases v
  {
    match v
    case Array(items) =>
      forall i | 0 <= i < |items| ensures Valid(Canon(items[i])) {
        CanonValid(items[i]);
      }
    case Object(ms) =>
      var sorted := Sort(ms, ByKey);
      SortedMembers(ms);
      var r := CanonMembers(v, sorted);
      forall i | 0 <= i < |r| ensures Valid(r[i].value) {
        assert sorted[i] in ms;
        CanonValid(sorted[i].value);
      }
      forall i, j | 0 <= i < j < |r| ensures r[i].key != r[j].key {
        assert ByKey(sorted[i], sorted[j]);
        LessTextTotal(sorted[i].key, sorted[i].key);
      }
    case _ =>
  }

  // ---------------------------------------------------------------- equality up to member order

  function Keys(ms: seq<Member>): set<string> {
    set m | m in ms :: m.key
  }

  /** Equal up to the order of object members, at every depth. */
  ghost predicate Same(a: Value, b: Value)
    decreases a
  {
    match (a, b)
    case (Array(s), Array(t)) =>
      |s| == |t| && forall i :: 0 <= i < |s| ==> Same(s[i], t[i])
    case (Object(ms), Object(ns)) =>
      && Keys(ms) == Keys(ns)
      && forall i, j :: 0 <= i < |ms| && 0 <= j < |ns| && ms[i].key == ns[j].key ==> Same(ms[i].value, ns[j].value)
    case _ => a == b
  }

  function KeyList(ms: seq<Member>): (r: seq<string>)
    ensures |r| == |ms| && forall i :: 0 <= i < |ms| ==> r[i] == ms[i].key
  {
    seq(|ms|, i requires 0 <= i < |ms| => ms[i].key)
  }

  /** Two objects with the same names list them in the same sorted order. */
  lemma SortedKeysAgree(ms: seq<Member>, ns: seq<Member>)
    requires DistinctKeys(ms) && DistinctKeys(ns) && Keys(ms) == Keys(ns)
    ensures KeyList(Sort(ms, ByKey)) == KeyList(Sort(ns, ByKey))
  {
    SortedMembers(ms);
    SortedMembers(ns);
    var p, q := KeyList(Sort(ms, ByKey)), KeyList(Sort(ns, ByKey));
    TextOrder();
    SortedKeyElements(ms);
    SortedKeyElements(ns);
    assert Increasing(p, LessText) by {
      forall i, j | 0 <= i < j < |p| ensures LessText(p[i], p[j]) {
        assert ByKey(Sort(ms, ByKey)[i], Sort(ms, ByKey)[j]);
      }
    }
    assert Increasing(q, LessText) by {
      forall i, j | 0 <= i < j < |q| ensures LessText(q[i], q[j]) {
        assert ByKey(Sort(ns, ByKey)[i], Sort(ns, ByKey)[j]);
      }
    }
    IncreasingUnique(p, q, LessText);
  }

  lemma SortedKeyElements(ms: seq<Member>)
    ensures forall k :: k in KeyList(Sort(ms, ByKey)) <==> k in Keys(ms)
  {
    SortKeepsMembers(ms);
    KeyListElements(Sort(ms, ByKey));
    assert Keys(Sort(ms, ByKey)) == Keys(ms);
  }

  /** The sorted form decides equality up to member order. */
  lemma {:induction false} CanonDecidesSame(a: Value, b: Value)
    requires Valid(a) && Valid(b)
    ensures Canon(a) == Canon(b) <==> Same(a, b)
    decreases a
  {
    match (a, b)
    case (Array(s), Array(t)) =>
      if |s| == |t| {
        forall i | 0 <= i < |s| ensures CanonItems(s)[i] == CanonItems(t)[i] <==> Same(s[i], t[i]) {
          CanonDecidesSame(s[i], t[i]);
        }
      }
    case (Object(ms), Object(ns)) =>
      SortedMembers(ms);
      SortedMembers(ns);
      if Canon(a) == Canon(b) {
        CanonImpliesSame(a, b);
      }
      if Same(a, b) {
        SameImpliesCanon(a, b);
      }
    case _ =>
  }

  lemma CanonKeysAgree(a: Value, b: Value)
    requires Valid(a) && Valid(b) && a.Object? && b.Object? && Canon(a) == Canon(b)
    ensures KeyList(Sort(a.members, ByKey)) == KeyList(Sort(b.members, ByKey))
    ensures Keys(a.members) == Keys(b.members)
  {
    var p, q := Sort(a.members, ByKey), Sort(b.members, ByKey);
    SortKeepsMembers(a.members);
    SortKeepsMembers(b.members);
    var r := CanonMembers(a, p);
    assert r == CanonMembers(b, q);
    assert KeyList(p) == KeyList(r) == KeyList(q);
    SortedKeyElements(a.members);
    SortedKeyElements(b.members);
  }

  lemma {:induction false} CanonImpliesSame(a: Value, b: Value)
    requires Valid(a) && Valid(b) && a.Object? && b.Object? && Canon(a) == Canon(b)
    ensures Same(a, b)
    decreases a, 0
  {
    var ms, ns := a.members, b.members;
    CanonKeysAgree(a, b);
    forall i, j | 0 <= i < |ms| && 0 <= j < |ns| && ms[i].key == ns[j].key
      ensures Same(ms[i].value, ns[j].value)
    {
      CanonValuesAgree(a, b, i, j);
      CanonDecidesSame(ms[i].value, ns[j].value);
    }
  }

  lemma CanonValuesAgree(a: Value, b: Value, i: nat, j: nat)
    requires Valid(a) && Valid(b) && a.Object? && b.Object? && Canon(a) == Canon(b)
    requires i < |a.members| && j < |b.members| && a.members[i].key == b.members[j].key
    ensures Canon(a.members[i].value) == Canon(b.members[j].value)
  {
    var p, q := Sort(a.members, ByKey), Sort(b.members, ByKey);
    SortedMembers(a.members);
    SortedMembers(b.members);
    CanonKeysAgree(a, b);
    var x := Find(p, a.members[i]);
    var y := Find(q, b.members[j]);
    assert KeyList(p)[x] == KeyList(q)[x];
    IncreasingKeysDistinct(q, x, y);
    assert CanonMembers(a, p)[x] == CanonMembers(b, q)[x];
  }

  lemma Find<T>(s: seq<T>, x: T) returns (i: nat)
    requires x in s
    ensures i < |s| && s[i] == x
  {
    i :| 0 <= i < |s| && s[i] == x;
  }

  lemma IncreasingKeysDistinct(ms: seq<Member>, x: nat, y: nat)
    requires Increasing(ms, ByKey) && x < |ms| && y < |ms| && ms[x].key == ms[y].key
    ensures x == y
  {
    LessTextTotal(ms[x].key, ms[y].key);
    assert x < y ==> ByKey(ms[x], ms[y]);
    assert y < x ==> ByKey(ms[y], ms[x]);
  }

  lemma {:induction false} SameImpliesCanon(a: Value, b: Value)
    requires Valid(a) && Valid(b) && a.Object? && b.Object? && Same(a, b)
    ensures Canon(a) == Canon(b)
    decreases a, 0
  {
    var ms, ns := a.members, b.members;
    var p, q := Sort(ms, ByKey), Sort(ns, ByKey);
    SortedMembers(ms);
    SortedMembers(ns);
    SortedKeysAgree(ms, ns);
    var r, t := CanonMembers(a, p), CanonMembers(b, q);
    forall x | 0 <= x < |p| ensures r[x] == t[x] {
      assert p[x] in ms && q[x] in ns;
      assert KeyList(p)[x] == KeyList(q)[x];
      var i :| 0 <= i < |ms| && ms[i] == p[x];
      var j :| 0 <= j < |ns| && ns[j] == q[x];
      CanonDecidesSame(ms[i].value, ns[j].value);
    }
    assert |KeyList(p)| == |KeyList(q)|;
    assert r == t;
  }

  /** `stableStringify` gives equal text exactly to values that are equal up to member order. */
  lemma StableTextDecidesSame(a: Value, b: Value)
    requires Valid(a) && Valid(b)
    ensures StableStringify(a) == StableStringify(b) <==> Same(a, b)
  {
    StableIsPrintOfCanon(a);
    StableIsPrintOfCanon(b);
    CanonValid(a);
    CanonValid(b);
    JsonLaws.RoundTrip(Canon(a));
    JsonLaws.RoundTrip(Canon(b));
    CanonDecidesSame(a, b);
  }

  /** The canonical text is itself JSON for the same value. */
  lemma StableTextParses(v: Value)
    requires Valid(v)
    ensures ParseText(StableStringify(v)) == Some(Canon(v)) && Same(v, Canon(v))
  {
    StableIsPrintOfCanon(v);
    CanonValid(v);
    JsonLaws.RoundTrip(Canon(v));
    CanonIsSame(v);
  }

  /** At every depth the members stand in ascending order of the code units of their names. */
  ghost predicate Ascending(v: Value) {
    match v
    case Array(items) => forall i :: 0 <= i < |items| ==> Ascending(items[i])
    case Object(ms) =>
      && (forall i, j :: 0 <= i < j < |ms| ==> ComesBefore(Units(ms[i].key), Units(ms[j].key)))
      && (forall i :: 0 <= i < |ms| ==> Ascending(ms[i].value))
    case _ => true
  }

  /** The canonical text is JSON whose members are in this order throughout. */
  lemma StableTextIsSorted(v: Value)
    requires Valid(v)
    ensures ParseText(StableStringify(v)).Some? && Ascending(ParseText(StableStringify(v)).value)
  {
    StableTextParses(v);
    CanonIsAscending(v);
  }

  lemma {:induction false} CanonIsAscending(v: Value)
    requires Valid(v)
    ensures Ascending(Canon(v))
    decreases v
  {
    match v
    case Array(items) =>
      forall i | 0 <= i < |items| ensures Ascending(CanonItems(items)[i]) {
        CanonIsAscending(items[i]);
      }
    case Object(ms) =>
      var p := Sort(ms, ByKey);
      SortedMembers(ms);
      var r := CanonMembers(v, p);
      forall i | 0 <= i < |r| ensures Ascending(r[i].value) {
        assert p[i] in ms;
        CanonIsAscending(p[i].value);
      }
      forall i, j | 0 <= i < j < |r| ensures ComesBefore(Units(r[i].key), Units(r[j].key)) {
        assert ByKey(p[i], p[j]);
        LessTextIff(p[i].key, p[j].key);
      }
    case _ =>
  }

  lemma {:induction false} CanonIsSame(v: Value)
    requires Valid(v)
    ensures Same(v, Canon(v))
    decreases v
  {
    match v
    case Array(items) =>
      forall i | 0 <= i < |items| ensures Same(items[i], CanonItems(items)[i]) {
        CanonIsSame(items[i]);
      }
    case Object(ms) =>
      var p := Sort(ms, ByKey);
      SortedMembers(ms);
      var r := CanonMembers(v, p);
      CanonKeepsKeys(v);
      forall i, j | 0 <= i < |ms| && 0 <= j < |r| && ms[i].key == r[j].key
        ensures Same(ms[i].value, r[j].value)
      {
        var x := Find(p, ms[i]);
        IncreasingKeysDistinct(p, x, j);
        CanonIsSame(ms[i].value);
      }
    case _ =>
  }

  lemma CanonKeepsKeys(v: Value)
    requires v.Object?
    ensures Canon(v).Object? && Keys(Canon(v).members) == Keys(v.members)
  {
    SortKeepsMembers(v.members);
    var p := Sort(v.members, ByKey);
    var r := CanonMembers(v, p);
    SortedKeyElements(v.members);
    assert KeyList(p) == KeyList(r);
    KeyListElements(r);
  }

  lemma KeyListElements(ms: seq<Member>)
    ensures forall k :: k in KeyList(ms) <==> k in Keys(ms)
  {
    forall k ensures k in KeyList(ms) <==> k in Keys(ms) {
      if k in KeyList(ms) {
        var i := Find(KeyList(ms), k);
        assert ms[i] in ms;
      }
      if k in Keys(ms) {
        var m :| m in ms && m.key == k;
        var i := Find(ms, m);
        assert KeyList(ms)[i] == k;
      }
    }
  }

  // ---------------------------------------------------------------- omitting top-level names

  function Kept(ms: seq<Member>, omit: seq<string>): seq<Member> {
    if ms == [] then []
    else if ms[|ms| - 1].key in omit then Kept(ms[..|ms| - 1], omit)
    else Kept(ms[..|ms| - 1], omit) + [ms[|ms| - 1]]
  }

  /** `r` has, in their order, the members at the places `at`, which are those whose name is not omitted. */
  ghost predicate KeepsAt(ms: seq<Member>, r: seq<Member>, omit: seq<string>, at: seq<nat>) {
    && |at| == |r|
    && (forall i :: 0 <= i < |r| ==> at[i] < |ms| && r[i] == ms[at[i]] && r[i].key !in omit)
    && (forall i, j :: 0 <= i < j < |at| ==> at[i] < at[j])
    && (forall k: nat :: k < |ms| && ms[k].key !in omit ==> k in at)
  }

  function Places(ms: seq<Member>, omit: seq<string>): seq<nat> {
    if ms == [] then []
    else Places(ms[..|ms| - 1], omit) + if ms[|ms| - 1].key in omit then [] else [|ms| - 1]
  }

  lemma {:induction false} KeptInOrder(ms: seq<Member>, omit: seq<string>)
    ensures KeepsAt(ms, Kept(ms, omit), omit, Places(ms, omit))
  {
    if ms != [] {
      var n := |ms| - 1;
      KeptInOrder(ms[..n], omit);
      var at := Places(ms[..n], omit);
      assert forall i :: 0 <= i < |at| ==> at[i] < n;
    }
  }

  function Omitted(v: Value, omit: seq<string>): Value {
    if v.Object? then Object(Kept(v.members, omit)) else v
  }

  method OmitKeys(v: Value, omit: seq<string>) returns (r: Value)
    ensures r == Omitted(v, omit)
    ensures !v.Object? ==> r == v
    ensures v.Object? ==> r.Object? && exists at :: KeepsAt(v.members, r.members, omit, at)
  {
    if !v.Object? {
      return v;
    }
    var out: seq<Member> := [];
    for i := 0 to |v.members|
      invariant out == Kept(v.members[..i], omit)
    {
      assert v.members[..i + 1][..i] == v.members[..i];
      var m := v.members[i];
      if m.key !in omit {
        out := out + [m];
      }
    }
    assert v.members[..|v.members|] == v.members;
    KeptInOrder(v.members, omit);
    r := Object(out);
  }

  method DeepEqualExcept(a: Value, b: Value, omit: seq<string>) returns (equal: bool)
    requires Valid(a) && Valid(b)
    ensures equal <==> AgreeExcept(a, b, omit)
  {
    var p := OmitKeys(a, omit);
    var q := OmitKeys(b, omit);
    equal := StableStringify(p) == StableStringify(q);
    OmittedAgree(a, b, omit);
  }

  /** Equal up to member order once members with the omitted top-level names are disregarded. */
  ghost predicate AgreeExcept(a: Value, b: Value, omit: seq<string>) {
    if a.Object? && b.Object? then
      && (forall k :: k !in omit ==> (k in Keys(a.members) <==> k in Keys(b.members)))
      && (forall i, j :: 0 <= i < |a.members| && 0 <= j < |b.members|
                         && a.members[i].key == b.members[j].key && a.members[i].key !in omit
                         ==> Same(a.members[i].value, b.members[j].value))
    else Same(a, b)
  }

  lemma {:induction false} KeptMembers(ms: seq<Member>, omit: seq<string>)
    requires DistinctKeys(ms)
    ensures forall m :: m in Kept(ms, omit) <==> m in ms && m.key !in omit
    ensures DistinctKeys(Kept(ms, omit))
  {
    if ms != [] {
      var n := |ms| - 1;
      KeptMembers(ms[..n], omit);
      assert ms == ms[..n] + [ms[n]];
    }
  }

  lemma OmittedValid(v: Value, omit: seq<string>)
    requires Valid(v)
    ensures Valid(Omitted(v, omit))
  {
    if v.Object? {
      KeptMembers(v.members, omit);
      var r := Kept(v.members, omit);
      forall i | 0 <= i < |r| ensures Valid(r[i].value) {
        assert r[i] in v.members;
      }
    }
  }

  /** `deepEqualExcept` holds exactly when the values agree outside the omitted names. */
  lemma OmittedAgree(a: Value, b: Value, omit: seq<string>)
    requires Valid(a) && Valid(b)
    ensures StableStringify(Omitted(a, omit)) == StableStringify(Omitted(b, omit)) <==> AgreeExcept(a, b, omit)
  {
    OmittedValid(a, omit);
    OmittedValid(b, omit);
    StableTextDecidesSame(Omitted(a, omit), Omitted(b, omit));
    if a.Object? && b.Object? {
      KeptMembers(a.members, omit);
      KeptMembers(b.members, omit);
      KeptSame(a, b, omit);
    }
  }

  lemma KeptKeys(ms: seq<Member>, omit: seq<string>)
    requires DistinctKeys(ms)
    ensures forall k :: k in Keys(Kept(ms, omit)) <==> k in Keys(ms) && k !in omit
  {
    KeptMembers(ms, omit);
  }

  lemma KeptSame(a: Value, b: Value, omit: seq<string>)
    requires a.Object? && b.Object? && DistinctKeys(a.members) && DistinctKeys(b.members)
    ensures Same(Omitted(a, omit), Omitted(b, omit)) <==> AgreeExcept(a, b, omit)
  {
    hide Kept, Keys;
    KeptKeys(a.members, omit);
    KeptKeys(b.members, omit);
    if Same(Omitted(a, omit), Omitted(b, omit)) {
      forall k | k !in omit ensures k in Keys(a.members) <==> k in Keys(b.members) {
        assert k in Keys(Kept(a.members, omit)) <==> k in Keys(Kept(b.members, omit));
      }
      KeptSameValues(a, b, omit);
    }
    if AgreeExcept(a, b, omit) {
      var p, q := Kept(a.members, omit), Kept(b.members, omit);
      forall k ensures k in Keys(p) <==> k in Keys(q) {
        if k !in omit {
          assert k in Keys(a.members) <==> k in Keys(b.members);
        }
      }
      assert Keys(p) == Keys(q);
      AgreeKept(a, b, omit);
    }
  }

  lemma KeptSameValues(a: Value, b: Value, omit: seq<string>)
    requires a.Object? && b.Object? && DistinctKeys(a.members) && DistinctKeys(b.members)
    requires Same(Omitted(a, omit), Omitted(b, omit))
    ensures forall i, j :: 0 <= i < |a.members| && 0 <= j < |b.members|
                           && a.members[i].key == b.members[j].key && a.members[i].key !in omit
                           ==> Same(a.members[i].value, b.members[j].value)
  {
    var ms, ns := a.members, b.members;
    KeptMembers(ms, omit);
    KeptMembers(ns, omit);
    forall i, j | 0 <= i < |ms| && 0 <= j < |ns| && ms[i].key == ns[j].key && ms[i].key !in omit
      ensures Same(ms[i].value, ns[j].value)
    {
      var x := Find(Kept(ms, omit), ms[i]);
      var y := Find(Kept(ns, omit), ns[j]);
    }
  }

  lemma AgreeKept(a: Value, b: Value, omit: seq<string>)
    requires a.Object? && b.Object? && DistinctKeys(a.members) && DistinctKeys(b.members)
    requires AgreeExcept(a, b, omit) && Keys(Kept(a.members, omit)) == Keys(Kept(b.members, omit))
    ensures Same(Omitted(a, omit), Omitted(b, omit))
  {
    var ka, kb := Kept(a.members, omit), Kept(b.members, omit);
    KeptMembers(a.members, omit);
    KeptMembers(b.members, omit);
    forall x, y | 0 <= x < |ka| && 0 <= y < |kb| && ka[x].key == kb[y].key
      ensures Same(ka[x].value, kb[y].value)
    {
      assert ka[x] in ka && kb[y] in kb;
      var i := Find(a.members, ka[x]);
      var j := Find(b.members, kb[y]);
    }
  }
}
