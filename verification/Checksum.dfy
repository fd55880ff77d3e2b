/** The checksum preimage of an operation and exactly which operations share one. */
module ChecksumPreimage {
  import opened Common
  import opened Sorting
  import opened CanonicalJson
  import opened CanonicalParser

  const VERSION: Text := [118, 49, 124] // v1|

  /** Command types are matched against a pattern before any checksum is computed. */
  predicate CommandType(t: Text) {
    && 1 <= |t| <= 64
    && 97 <= t[0] <= 122
    && forall u <- t :: 97 <= u <= 122 || 48 <= u <= 57 || u == 95 || u == 46 || u == 45
  }

  function StatementList(statements: seq<Text>): Json {
    JArray(seq(|statements|, i requires 0 <= i < |statements| => JString(statements[i])))
  }

  function Preimage(commandType: Text, command: Json, statements: seq<Text>): Text {
    VERSION + commandType + [BAR] + Canonical(command) + [BAR] + Canonical(StatementList(statements))
  }

  // ---------- sorting ----------

  /** The first difference decides, or the shorter text when there is none. */
  ghost predicate FirstDiffers(a: Text, b: Text, n: nat) {
    n <= |a| && n < |b| && a[..n] == b[..n] && (n == |a| || a[n] < b[n])
  }

  /** Texts are compared by code units, as ECMAScript compares strings. */
  lemma {:induction false} LessIsUnitOrder(a: Text, b: Text)
    ensures Less(a, b) <==> exists n :: FirstDiffers(a, b, n)
  {
    if b != [] && (a == [] || a[0] < b[0]) {
      assert FirstDiffers(a, b, 0);
    } else if a != [] && b != [] && a[0] == b[0] {
      LessIsUnitOrder(a[1..], b[1..]);
      if n: nat :| FirstDiffers(a[1..], b[1..], n) {
        assert a[..n + 1] == [a[0]] + a[1..][..n] && b[..n + 1] == [b[0]] + b[1..][..n];
        assert FirstDiffers(a, b, n + 1);
      }
      if n: nat :| FirstDiffers(a, b, n) {
        assert n > 0 && a[1..][..n - 1] == a[..n][1..] && b[1..][..n - 1] == b[..n][1..];
        assert FirstDiffers(a[1..], b[1..], n - 1);
      }
    } else {
      forall n: nat ensures !FirstDiffers(a, b, n) {
        assert 0 < n <= |a| && n < |b| ==> a[..n][0] == a[0] && b[..n][0] == b[0];
      }
    }
  }

  lemma {:induction false} LessTrichotomy(a: Text, b: Text)
    ensures Less(a, b) || a == b || Less(b, a)
    ensures !(Less(a, b) && Less(b, a)) && !Less(a, a)
  {
    if a != [] {
      LessTrichotomy(a[1..], a[1..]);
    }
    if a != [] && b != [] && a[0] == b[0] {
      LessTrichotomy(a[1..], b[1..]);
      if a[1..] == b[1..] {
        assert a == [a[0]] + a[1..] == b;
      }
    }
  }

  lemma {:induction false} LessTransitive(a: Text, b: Text, c: Text)
    requires Less(a, b) && Less(b, c)
    ensures Less(a, c)
  {
    if a != [] && a[0] == b[0] == c[0] {
      LessTransitive(a[1..], b[1..], c[1..]);
    }
  }

  ghost predicate Sorted<V>(s: seq<Member<V>>) {
    Ascending(s, KeyBefore)
  }

  lemma KeyOrder<V(!new)>()
    ensures Transitive<Member<V>>(KeyBefore) && Asymmetric<Member<V>>(KeyBefore)
  {
    forall a: Member<V>, b: Member<V>, c: Member<V> ensures KeyBefore(a, b) && KeyBefore(b, c) ==> KeyBefore(a, c) {
      if KeyBefore(a, b) && KeyBefore(b, c) {
        LessTransitive(a.key, b.key, c.key);
      }
    }
    forall a: Member<V>, b: Member<V> ensures KeyBefore(a, b) ==> !KeyBefore(b, a) {
      LessTrichotomy(a.key, b.key);
    }
  }

  lemma SortSorts<V(!new)>(members: seq<Member<V>>)
    requires DistinctKeys(members)
    ensures Sorted(SortMembers(members))
    ensures multiset(SortMembers(members)) == multiset(members)
  {
    KeyOrder<V>();
    forall i, j | 0 <= i < j < |members|
      ensures KeyBefore(members[i], members[j]) || KeyBefore(members[j], members[i])
    {
      LessTrichotomy(members[i].key, members[j].key);
    }
    SortByAscends(members, KeyBefore);
  }

  /** Two sorted lists with the same elements are the same list. */
  lemma SortedUnique<V(!new)>(a: seq<Member<V>>, b: seq<Member<V>>)
    requires Sorted(a) && Sorted(b) && multiset(a) == multiset(b)
    ensures a == b
  {
    KeyOrder<V>();
    SameMembers(a, b);
    AscendingUnique(a, b, KeyBefore);
  }

  // ---------- decoding ----------

  lemma {:induction false} NormalIsFinitary(v: Json)
    requires WellFormed(v)
    ensures Finitary(Normal(v))
  {
    match v
    case JArray(items) =>
      forall item <- NormalItems(items) ensures Finitary(item) {
        var i :| 0 <= i < |items| && NormalItems(items)[i] == item;
        NormalIsFinitary(items[i]);
      }
    case JObject(members) =>
      var normal := NormalMembers(members);
      SortSorts(normal);
      forall k | 0 <= k < |SortMembers(normal)| ensures Finitary(SortMembers(normal)[k].value) {
        assert SortMembers(normal)[k] in multiset(normal);
        var i :| 0 <= i < |members| && normal[i] == SortMembers(normal)[k];
        assert members[i].value < members[i];
        NormalIsFinitary(members[i].value);
      }
    case _ =>
  }

  function BarAt(t: Text): (n: nat)
    ensures n <= |t| && (n < |t| ==> t[n] == BAR)
  {
    if t == [] || t[0] == BAR then 0 else 1 + BarAt(t[1..])
  }

  lemma {:induction false} BarAfter(head: Text, rest: Text)
    requires BAR !in head
    ensures BarAt(head + [BAR] + rest) == |head|
  {
    if head == [] {
      assert (head + [BAR] + rest)[0] == BAR;
    } else {
      assert (head + [BAR] + rest)[1..] == head[1..] + [BAR] + rest;
      BarAfter(head[1..], rest);
    }
  }

  /** Reads a preimage back: command type, normal form of the command, statement list. */
  function Decode(t: Text): Option<(Text, Json, Json)> {
    if !(VERSION <= t) then None
    else
      var body := t[3..];
      var n := BarAt(body);
      if n == |body| then None
      else
        var command := ParseValue(body[n + 1..]);
        if command.None? || command.value.1 == [] || command.value.1[0] != BAR then None
        else
          var statements := ParseValue(command.value.1[1..]);
          if statements.None? || statements.value.1 != [] then None
          else Some((body[..n], command.value.0, statements.value.0))
  }

  lemma StatementListNormal(statements: seq<Text>)
    ensures Normal(StatementList(statements)) == StatementList(statements)
    ensures WellFormed(StatementList(statements))
  {
    assert NormalItems(StatementList(statements).items) == StatementList(statements).items;
  }

  lemma ParseCommand(command: Json, statements: seq<Text>)
    requires WellFormed(command)
    ensures var tail := Canonical(StatementList(statements));
      && ParseValue(Canonical(command) + ([BAR] + tail)) == Some((Normal(command), [BAR] + tail))
      && ParseValue(tail) == Some((StatementList(statements), []))
  {
    var tail := Canonical(StatementList(statements));
    StatementListNormal(statements);
    NormalIsFinitary(command);
    NormalIsFinitary(StatementList(statements));
    CanonicalIsPlain(command);
    CanonicalIsPlain(StatementList(statements));
    RoundTrip(Normal(command), [BAR] + tail);
    RoundTrip(StatementList(statements), []);
    assert tail + [] == tail;
  }

  lemma HeaderDecodes(commandType: Text, rest: Text)
    requires CommandType(commandType)
    ensures var t := VERSION + commandType + [BAR] + rest;
      && VERSION <= t && BarAt(t[3..]) == |commandType| < |t[3..]|
      && t[3..][..|commandType|] == commandType
      && t[3..][|commandType| + 1..] == rest
  {
    var t := VERSION + commandType + [BAR] + rest;
    assert t[3..] == commandType + [BAR] + rest;
    BarAfter(commandType, rest);
  }

  /** The decoder inverts the preimage, up to the normal form of the command. */
  lemma DecodeInverts(commandType: Text, command: Json, statements: seq<Text>)
    requires CommandType(commandType) && WellFormed(command)
    ensures Decode(Preimage(commandType, command, statements))
         == Some((commandType, Normal(command), StatementList(statements)))
  {
    var tail := Canonical(StatementList(statements));
    var rest := Canonical(command) + ([BAR] + tail);
    ParseCommand(command, statements);
    HeaderDecodes(commandType, rest);
    PreimageIs(commandType, command, statements);
    DecodeParts(VERSION + commandType + [BAR] + rest, commandType, rest, Normal(command), tail, StatementList(statements));
  }

  lemma PreimageIs(commandType: Text, command: Json, statements: seq<Text>)
    ensures Preimage(commandType, command, statements)
            == VERSION + commandType + [BAR] + (Canonical(command) + ([BAR] + Canonical(StatementList(statements))))
  {
  }

  lemma DecodeParts(t: Text, commandType: Text, rest: Text, command: Json, tail: Text, statements: Json)
    requires VERSION <= t && BarAt(t[3..]) == |commandType| < |t[3..]|
    requires t[3..][..|commandType|] == commandType && t[3..][|commandType| + 1..] == rest
    requires ParseValue(rest) == Some((command, [BAR] + tail)) && ParseValue(tail) == Some((statements, []))
    ensures Decode(t) == Some((commandType, command, statements))
  {
    assert ([BAR] + tail)[1..] == tail;
  }

  // ---------- equality up to key order ----------

  /** What JSON writes a scalar as: null for NaN and the infinities, 0 for -0. */
  function Written(v: Json): Json {
    match v
    case JNumber(NonFinite) => JNull
    case JNumber(NegativeZero) => JNumber(Finite(ZERO))
    case _ => v
  }

  /** Equal up to the order of object keys and the numbers JSON cannot tell apart. */
  predicate Same(a: Json, b: Json) {
    match (a, b)
    case (JArray(xs), JArray(ys)) => |xs| == |ys| && forall i | 0 <= i < |xs| :: Same(xs[i], ys[i])
    case (JObject(ms), JObject(ns)) =>
      && |ms| == |ns|
      && forall i | 0 <= i < |ms| :: exists j | 0 <= j < |ns| :: ms[i].key == ns[j].key && Same(ms[i].value, ns[j].value)
    case _ => Written(a) == Written(b)
  }

  lemma {:induction false} DistinctCount<T>(s: seq<T>)
    requires forall i, j | 0 <= i < j < |s| :: s[i] != s[j]
    ensures |set e | e in s| == |s|
    ensures forall e :: multiset(s)[e] == if e in s then 1 else 0
  {
    if s != [] {
      DistinctCount(s[1..]);
      assert s == [s[0]] + s[1..];
      assert (set e | e in s) == {s[0]} + (set e | e in s[1..]);
    }
  }

  lemma DistinctBySize<T>(x: seq<T>, y: seq<T>)
    requires |x| == |y|
    requires forall i, j | 0 <= i < j < |x| :: x[i] != x[j]
    requires forall i, j | 0 <= i < j < |y| :: y[i] != y[j]
    requires forall i | 0 <= i < |x| :: x[i] in y
    ensures multiset(x) == multiset(y)
  {
    DistinctCount(x);
    DistinctCount(y);
    var xs, ys := set e | e in x, set e | e in y;
    assert xs <= ys;
    assert |ys - xs| == |ys| - |xs|;
    assert xs == ys;
    assert forall e :: e in x <==> e in xs;
    assert forall e :: e in y <==> e in ys;
  }

  lemma NormalKeys(members: seq<Member<Json>>)
    requires DistinctKeys(members)
    ensures DistinctKeys(NormalMembers(members))
    ensures forall i, j | 0 <= i < j < |members| :: NormalMembers(members)[i] != NormalMembers(members)[j]
  {
  }

  lemma SortedMembersEqual(x: seq<Member<Json>>, y: seq<Member<Json>>)
    requires DistinctKeys(x) && DistinctKeys(y)
    ensures SortMembers(x) == SortMembers(y) <==> multiset(x) == multiset(y)
  {
    SortSorts(x);
    SortSorts(y);
    if multiset(x) == multiset(y) {
      SortedUnique(SortMembers(x), SortMembers(y));
    }
  }

  lemma MultisetBySize(x: seq<Member<Json>>, y: seq<Member<Json>>)
    requires DistinctKeys(x) && DistinctKeys(y)
    ensures multiset(x) == multiset(y) <==> |x| == |y| && forall i | 0 <= i < |x| :: x[i] in y
  {
    if |x| == |y| && forall i | 0 <= i < |x| :: x[i] in y {
      DistinctBySize(x, y);
    }
    if multiset(x) == multiset(y) {
      assert |multiset(x)| == |x| && |multiset(y)| == |y|;
      forall i | 0 <= i < |x| ensures x[i] in y {
        assert x[i] in multiset(y);
      }
    }
  }

  /** A member of one object has its counterpart in the other, under normal forms. */
  ghost predicate Counterpart(m: Member<Json>, ns: seq<Member<Json>>) {
    exists j | 0 <= j < |ns| :: m.key == ns[j].key && Normal(m.value) == Normal(ns[j].value)
  }

  lemma CounterpartInNormal(ms: seq<Member<Json>>, ns: seq<Member<Json>>, i: nat)
    requires i < |ms|
    ensures Counterpart(ms[i], ns) <==> NormalMembers(ms)[i] in NormalMembers(ns)
  {
    var x, y := NormalMembers(ms), NormalMembers(ns);
    if Counterpart(ms[i], ns) {
      var j :| 0 <= j < |ns| && ms[i].key == ns[j].key && Normal(ms[i].value) == Normal(ns[j].value);
      assert y[j] == x[i];
    }
    if x[i] in y {
      var j :| 0 <= j < |y| && y[j] == x[i];
      assert ms[i].key == ns[j].key && Normal(ms[i].value) == Normal(ns[j].value);
    }
  }

  lemma NormalObjectsEqual(ms: seq<Member<Json>>, ns: seq<Member<Json>>)
    requires DistinctKeys(ms) && DistinctKeys(ns)
    ensures Normal(JObject(ms)) == Normal(JObject(ns))
       <==> |ms| == |ns| && forall i | 0 <= i < |ms| :: Counterpart(ms[i], ns)
  {
    NormalKeys(ms);
    NormalKeys(ns);
    SortedMembersEqual(NormalMembers(ms), NormalMembers(ns));
    MultisetBySize(NormalMembers(ms), NormalMembers(ns));
    forall i | 0 <= i < |ms| ensures Counterpart(ms[i], ns) <==> NormalMembers(ms)[i] in NormalMembers(ns) {
      CounterpartInNormal(ms, ns, i);
    }
  }

  lemma {:induction false} SameCounterpart(m: Member<Json>, ns: seq<Member<Json>>)
    requires WellFormed(m.value) && forall j | 0 <= j < |ns| :: WellFormed(ns[j].value)
    ensures (exists j | 0 <= j < |ns| :: m.key == ns[j].key && Same(m.value, ns[j].value)) <==> Counterpart(m, ns)
    decreases m, 1
  {
    forall j | 0 <= j < |ns| ensures Same(m.value, ns[j].value) <==> Normal(m.value) == Normal(ns[j].value) {
      SameIsNormal(m.value, ns[j].value);
    }
  }

  lemma {:induction false} SameObjects(ms: seq<Member<Json>>, ns: seq<Member<Json>>)
    requires WellFormed(JObject(ms)) && WellFormed(JObject(ns))
    ensures Same(JObject(ms), JObject(ns)) <==> Normal(JObject(ms)) == Normal(JObject(ns))
    decreases ms, 2
  {
    NormalObjectsEqual(ms, ns);
    forall i | 0 <= i < |ms|
      ensures (exists j | 0 <= j < |ns| :: ms[i].key == ns[j].key && Same(ms[i].value, ns[j].value))
         <==> Counterpart(ms[i], ns)
    {
      SameCounterpart(ms[i], ns);
    }
  }

  lemma {:induction false} SameIsNormal(a: Json, b: Json)
    requires WellFormed(a) && WellFormed(b)
    ensures Same(a, b) <==> Normal(a) == Normal(b)
    decreases a, 0
  {
    match (a, b)
    case (JArray(xs), JArray(ys)) =>
      forall i | 0 <= i < |xs| && i < |ys| ensures Same(xs[i], ys[i]) <==> Normal(xs[i]) == Normal(ys[i]) {
        SameIsNormal(xs[i], ys[i]);
      }
      if Normal(a) == Normal(b) {
        assert NormalItems(xs) == NormalItems(ys);
        assert forall i | 0 <= i < |xs| :: NormalItems(xs)[i] == NormalItems(ys)[i];
      }
    case (JObject(ms), JObject(ns)) => SameObjects(ms, ns);
    case _ =>
  }

  /**
   The preimage is unambiguous: two operations share one exactly when their types and
   statement lists are equal and their commands differ at most in object key order (or in
   a non-finite number for null, or -0 for 0).
  */
  lemma PreimageUnambiguous(t: Text, command: Json, statements: seq<Text>,
                            t': Text, command': Json, statements': seq<Text>)
    requires CommandType(t) && CommandType(t') && WellFormed(command) && WellFormed(command')
    ensures Preimage(t, command, statements) == Preimage(t', command', statements')
       <==> t == t' && Same(command, command') && statements == statements'
  {
    SameIsNormal(command, command');
    DecodeInverts(t, command, statements);
    DecodeInverts(t', command', statements');
    CanonicalIsPlain(command);
    CanonicalIsPlain(command');
    if StatementList(statements) == StatementList(statements') {
      var xs, ys := StatementList(statements).items, StatementList(statements').items;
      assert |xs| == |statements| && |ys| == |statements'|;
      forall i | 0 <= i < |statements| ensures statements[i] == statements'[i] {
        assert xs[i] == JString(statements[i]) && ys[i] == JString(statements'[i]);
      }
    }
  }

  /** The value-level collisions: NaN and the infinities check as null, and -0 as 0. */
  lemma NonFiniteCollides(t: Text, key: Text, statements: seq<Text>)
    ensures JObject([Member(key, JNumber(NonFinite))]) != JObject([Member(key, JNull)])
    ensures Preimage(t, JObject([Member(key, JNumber(NonFinite))]), statements)
         == Preimage(t, JObject([Member(key, JNull)]), statements)
    ensures JObject([Member(key, JNumber(NegativeZero))]) != JObject([Member(key, JNumber(Finite(ZERO)))])
    ensures Preimage(t, JObject([Member(key, JNumber(NegativeZero))]), statements)
         == Preimage(t, JObject([Member(key, JNumber(Finite(ZERO)))]), statements)
  {
    assert CanonicalMembers([Member(key, JNumber(NonFinite))]) == CanonicalMembers([Member(key, JNull)]);
    assert CanonicalMembers([Member(key, JNumber(NegativeZero))]) == CanonicalMembers([Member(key, JNumber(Finite(ZERO)))]);
  }
}
