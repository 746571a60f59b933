/** Maps with keys of one protobuf kind, looked up and compared with CEL keys of any numeric type. */
module MapValue {
  import opened Options
  import opened EvalTree

  /* ---- Keys ---- */

  datatype Kind =
    | Int32Kind | Sint32Kind | Sfixed32Kind
    | Int64Kind | Sint64Kind | Sfixed64Kind
    | Uint32Kind | Fixed32Kind
    | Uint64Kind | Fixed64Kind
    | BoolKind | StringKind
    | OtherKind // no kind of map keys

  const TWO_31: int := 0x8000_0000
  const TWO_32: int := 0x1_0000_0000
  const TWO_63: int := 0x8000_0000_0000_0000
  const TWO_64: int := 0x1_0000_0000_0000_0000

  // A key as the map holds it: a Go value of type int32, int64, uint32, uint64, bool or string.
  datatype NativeKey = I32(i: int) | I64(i: int) | U32(u: int) | U64(u: int) | B(b: bool) | S(s: string)

  predicate OfKind(k: NativeKey, kind: Kind) {
    match kind
    case Int32Kind | Sint32Kind | Sfixed32Kind => k.I32? && -TWO_31 <= k.i < TWO_31
    case Int64Kind | Sint64Kind | Sfixed64Kind => k.I64? && -TWO_63 <= k.i < TWO_63
    case Uint32Kind | Fixed32Kind => k.U32? && 0 <= k.u < TWO_32
    case Uint64Kind | Fixed64Kind => k.U64? && 0 <= k.u < TWO_64
    case BoolKind => k.B?
    case StringKind => k.S?
    case OtherKind => false
  }

  // A CEL value that a map may be looked up with. A finite double is the real number it stands for.
  datatype CelKey =
    | Double(d: real)
    | CelInt(i: int)
    | CelUint(u: int)
    | CelBool(b: bool)
    | CelString(s: string)
    | CelOther

  // The values that CEL's integer types have, and the doubles whose conversion to an integer Go defines.
  predicate InDomain(key: CelKey) {
    match key
    case Double(d) => -(TWO_63 as real) < d < TWO_63 as real
    case CelInt(i) => -TWO_63 <= i < TWO_63
    case CelUint(u) => 0 <= u < TWO_64
    case _ => true
  }

  // What a key means: a number whatever its type, a boolean, or a string.
  datatype Meaning = Number(n: real) | Truth(b: bool) | Str(s: string) | Nothing

  function MeaningOf(key: CelKey): Meaning {
    match key
    case Double(d) => Number(d)
    case CelInt(i) => Number(i as real)
    case CelUint(u) => Number(u as real)
    case CelBool(b) => Truth(b)
    case CelString(s) => Str(s)
    case CelOther => Nothing
  }

  function NativeMeaning(k: NativeKey): Meaning {
    match k
    case I32(i) => Number(i as real)
    case I64(i) => Number(i as real)
    case U32(u) => Number(u as real)
    case U64(u) => Number(u as real)
    case B(b) => Truth(b)
    case S(s) => Str(s)
  }

  /* ---- Lossless conversions ---- */

  // Go's conversion of a double to an integer: towards zero
  function Truncate(d: real): int {
    if d >= 0.0 then d.Floor else -((-d).Floor)
  }

  function RealOf(i: int): real { i as real }

  function DoubleToInt64Lossless(d: real): (r: Option<int>)
    requires InDomain(Double(d))
    ensures r == None <==> forall i: int :: RealOf(i) != d
    ensures r.Some? ==> r.value as real == d && -TWO_63 <= r.value < TWO_63
  {
    var i := Truncate(d);
    if i as real == d then
      assert RealOf(i) == d;
      Some(i)
    else
      TruncateFinds(d);
      None
  }

  function DoubleToUint64Lossless(d: real): (r: Option<int>)
    requires InDomain(Double(d))
    ensures r == None <==> forall i: int :: RealOf(i) == d ==> i < 0
    ensures r.Some? ==> r.value as real == d && 0 <= r.value < TWO_64
  {
    if d < 0.0 then None else
      var u := Truncate(d);
      if u as real == d then
        assert RealOf(u) == d;
        Some(u)
      else
        TruncateFinds(d);
        None
  }

  lemma TruncateFinds(d: real)
    ensures forall i: int :: RealOf(i) == d ==> Truncate(d) == i
  {
    forall i: int | RealOf(i) == d
      ensures Truncate(d) == i
    {
      assert (i as real).Floor == i && (-i as real).Floor == -i;
    }
  }

  function Int64ToUint64Lossless(i: int): Option<int> { if i < 0 then None else Some(i) }

  function Uint64ToInt64Lossless(u: int): Option<int> { if u > TWO_63 - 1 then None else Some(u) }

  /* ---- Keys of the map's kind ---- */

  // None for the error
  function ToNativeKey(kind: Kind, key: CelKey): Option<NativeKey> {
    match kind
    case Int32Kind | Sint32Kind | Sfixed32Kind =>
      if key.CelInt? && -TWO_31 <= key.i <= TWO_31 - 1 then Some(I32(key.i)) else None
    case Int64Kind | Sint64Kind | Sfixed64Kind => if key.CelInt? then Some(I64(key.i)) else None
    case Uint32Kind | Fixed32Kind => if key.CelUint? && key.u <= TWO_32 - 1 then Some(U32(key.u)) else None
    case Uint64Kind | Fixed64Kind => if key.CelUint? then Some(U64(key.u)) else None
    case BoolKind => if key.CelBool? then Some(B(key.b)) else None
    case StringKind => if key.CelString? then Some(S(key.s)) else None
    case OtherKind => None
  }

  // Widened where the kind has 32 bits; otherwise as the adapter converts the Go value.
  function ToCelKey(kind: Kind, k: NativeKey): CelKey {
    match k
    case I32(i) => CelInt(i)
    case I64(i) => CelInt(i)
    case U32(u) => CelUint(u)
    case U64(u) => CelUint(u)
    case B(b) => CelBool(b)
    case S(s) => CelString(s)
  }

  /** A key of the map comes back from its CEL form, for every kind; and its meaning is kept. */
  lemma NativeOfCel(kind: Kind, k: NativeKey)
    requires OfKind(k, kind)
    ensures ToNativeKey(kind, ToCelKey(kind, k)) == Some(k)
    ensures MeaningOf(ToCelKey(kind, k)) == NativeMeaning(k) && InDomain(ToCelKey(kind, k))
  {
  }

  /** Keys of one kind that mean the same are the same. */
  lemma OneKeyPerMeaning(kind: Kind, k: NativeKey, l: NativeKey)
    requires OfKind(k, kind) && OfKind(l, kind) && NativeMeaning(k) == NativeMeaning(l)
    ensures k == l
  {
  }

  /* ---- Maps ---- */

  // order: the keys as Range visits them
  datatype ProtoMap<V> = ProtoMap(kind: Kind, entries: map<NativeKey, V>, order: seq<NativeKey>)

  ghost predicate Valid<V>(m: ProtoMap<V>) {
    && (forall k :: k in m.entries ==> OfKind(k, m.kind))
    && (forall i :: 0 <= i < |m.order| ==> m.order[i] in m.entries)
    && (forall i, j :: 0 <= i < j < |m.order| ==> m.order[i] != m.order[j])
    && (forall k :: k in m.entries ==> k in m.order)
  }

  function FindInternal<V>(m: ProtoMap<V>, key: CelKey): Option<V> {
    match ToNativeKey(m.kind, key)
    case None => None
    case Some(k) => if k in m.entries then Some(m.entries[k]) else None
  }

  function Find<V>(m: ProtoMap<V>, key: CelKey): Option<V>
    requires InDomain(key)
  {
    if FindInternal(m, key).Some? then FindInternal(m, key) else
      match key
      case Double(d) =>
        var i := DoubleToInt64Lossless(d);
        if i.Some? && FindInternal(m, CelInt(i.value)).Some? then FindInternal(m, CelInt(i.value)) else
          var u := DoubleToUint64Lossless(d);
          if u.Some? then FindInternal(m, CelUint(u.value)) else None
      case CelInt(i) =>
        var u := Int64ToUint64Lossless(i);
        if u.Some? then FindInternal(m, CelUint(u.value)) else None
      case CelUint(u) =>
        var i := Uint64ToInt64Lossless(u);
        if i.Some? then FindInternal(m, CelInt(i.value)) else None
      case _ => None
  }

  lemma InternalFinds<V>(m: ProtoMap<V>, key: CelKey)
    requires Valid(m) && InDomain(key)
    ensures FindInternal(m, key).Some? ==>
              exists k :: k in m.entries && NativeMeaning(k) == MeaningOf(key) &&
                m.entries[k] == FindInternal(m, key).value
    ensures forall k :: k in m.entries && ToCelKey(m.kind, k) == key ==> FindInternal(m, key) == Some(m.entries[k])
  {
    forall k | k in m.entries && ToCelKey(m.kind, k) == key
      ensures FindInternal(m, key) == Some(m.entries[k])
    {
      NativeOfCel(m.kind, k);
    }
  }

  /** Looking up succeeds iff the map has a key of the same meaning, whatever the numeric types, and returns that
      key's entry. */
  lemma FindIffSameMeaning<V>(m: ProtoMap<V>, key: CelKey)
    requires Valid(m) && InDomain(key)
    ensures forall k :: k in m.entries && NativeMeaning(k) == MeaningOf(key) ==> Find(m, key) == Some(m.entries[k])
    ensures Find(m, key).Some? ==>
              exists k :: k in m.entries && NativeMeaning(k) == MeaningOf(key) && m.entries[k] == Find(m, key).value
  {
    InternalFinds(m, key);
    Sound(m, key);
    forall k | k in m.entries && NativeMeaning(k) == MeaningOf(key)
      ensures Find(m, key) == Some(m.entries[k])
    {
      var asCel := ToCelKey(m.kind, k);
      NativeOfCel(m.kind, k);
      InternalFinds(m, asCel);
      assert FindInternal(m, asCel).Some?;
      assert Find(m, key).Some? by { Complete(m, key, k); }
      var l :| l in m.entries && NativeMeaning(l) == MeaningOf(key) && m.entries[l] == Find(m, key).value;
      OneKeyPerMeaning(m.kind, k, l);
    }
  }

  lemma Sound<V>(m: ProtoMap<V>, key: CelKey)
    requires Valid(m) && InDomain(key)
    ensures Find(m, key).Some? ==>
              exists k :: k in m.entries && NativeMeaning(k) == MeaningOf(key) && m.entries[k] == Find(m, key).value
  {
    InternalFinds(m, key);
    match key
    case Double(d) =>
      var i, u := DoubleToInt64Lossless(d), DoubleToUint64Lossless(d);
      if i.Some? { InternalFinds(m, CelInt(i.value)); }
      if u.Some? { InternalFinds(m, CelUint(u.value)); }
    case CelInt(i) => if i >= 0 { InternalFinds(m, CelUint(i)); }
    case CelUint(u) => if u < TWO_63 { InternalFinds(m, CelInt(u)); }
    case _ =>
  }

  lemma Complete<V>(m: ProtoMap<V>, key: CelKey, k: NativeKey)
    requires Valid(m) && InDomain(key) && k in m.entries && NativeMeaning(k) == MeaningOf(key)
    ensures Find(m, key).Some?
  {
    hide Valid, DoubleToInt64Lossless, DoubleToUint64Lossless;
    var asCel := ToCelKey(m.kind, k);
    InMap(m, k);
    InternalFinds(m, asCel);
    assert FindInternal(m, asCel) == Some(m.entries[k]);
    match key
    case Double(d) =>
      assert asCel.CelInt? ==> RealOf(asCel.i) == d;
      assert asCel.CelUint? ==> RealOf(asCel.u) == d;
    case CelInt(i) =>
    case CelUint(u) =>
    case CelBool(_) =>
    case CelString(_) =>
    case CelOther =>
  }

  lemma InMap<V>(m: ProtoMap<V>, k: NativeKey)
    requires Valid(m) && k in m.entries
    ensures OfKind(k, m.kind) && InDomain(ToCelKey(m.kind, k)) && MeaningOf(ToCelKey(m.kind, k)) == NativeMeaning(k)
  {
  }

  /* ---- Equality ---- */

  // What comparing two CEL values gives
  datatype Verdict = True | False | NotComparable

  /** Equal: by size, and then every entry of this map against the other one, up to the first that differs. A value
      that is no map is none's equal. */
  method Equal<V>(m: ProtoMap<V>, other: Option<ProtoMap<V>>, eq: (V, V) -> Verdict) returns (result: Verdict)
    requires Valid(m) && (other.Some? ==> Valid(other.value))
    ensures result == True <==> other.Some? && |m.entries| == |other.value.entries| && Covers(other.value, m, eq)
    ensures other.Some? && |m.entries| == |other.value.entries| && result != True ==>
              exists i :: FirstMismatch(other.value, m, eq, i) && result == VerdictOn(other.value, m, eq, m.order[i])
    ensures (other.Some? ==> |m.entries| != |other.value.entries|) ==> result == False
    ensures (forall v, w :: eq(v, w) != NotComparable) ==> result != NotComparable
  {
    hide Find, ToCelKey, Covers;
    if other.None? { return False; }
    if |m.entries| != |other.value.entries| { return False; }
    result := True;
    for i := 0 to |m.order|
      invariant result == True
      invariant forall j :: 0 <= j < i ==> Matches(other.value, m, eq, m.order[j])
    {
      var key, val := m.order[i], m.entries[m.order[i]];
      InMap(m, key);
      var otherVal := Find(other.value, ToCelKey(m.kind, key));
      if otherVal.None? {
        NoMatch(other.value, m, eq, key);
        assert FirstMismatch(other.value, m, eq, i);
        return False;
      }
      var verdict := eq(val, otherVal.value);
      if verdict != True {
        NoMatch(other.value, m, eq, key);
        assert FirstMismatch(other.value, m, eq, i);
        return verdict;
      }
    }
    AllMatch(other.value, m, eq);
  }

  lemma AllMatch<V>(a: ProtoMap<V>, m: ProtoMap<V>, eq: (V, V) -> Verdict)
    requires Valid(m) && forall j :: 0 <= j < |m.order| ==> Matches(a, m, eq, m.order[j])
    ensures Covers(a, m, eq)
  {
  }

  lemma NoMatch<V>(a: ProtoMap<V>, m: ProtoMap<V>, eq: (V, V) -> Verdict, k: NativeKey)
    requires k in m.entries && !Matches(a, m, eq, k)
    ensures !Covers(a, m, eq)
  {
  }

  ghost predicate Matches<V>(a: ProtoMap<V>, m: ProtoMap<V>, eq: (V, V) -> Verdict, k: NativeKey)
    requires k in m.entries
  {
    InDomain(ToCelKey(m.kind, k)) &&
    var found := Find(a, ToCelKey(m.kind, k));
    found.Some? && eq(m.entries[k], found.value) == True
  }

  // What is reported for an entry of m: that a has none for its key, or what comparing the two values gives.
  ghost function VerdictOn<V>(a: ProtoMap<V>, m: ProtoMap<V>, eq: (V, V) -> Verdict, k: NativeKey): Verdict
    requires k in m.entries
  {
    if InDomain(ToCelKey(m.kind, k)) && Find(a, ToCelKey(m.kind, k)).Some?
    then eq(m.entries[k], Find(a, ToCelKey(m.kind, k)).value) else False
  }

  // The first entry, in the order of iteration, that a does not match.
  ghost predicate FirstMismatch<V>(a: ProtoMap<V>, m: ProtoMap<V>, eq: (V, V) -> Verdict, i: int) {
    && 0 <= i < |m.order| && (forall j :: 0 <= j <= i ==> m.order[j] in m.entries)
    && (forall j :: 0 <= j < i ==> Matches(a, m, eq, m.order[j])) && !Matches(a, m, eq, m.order[i])
  }

  // Every entry of m is in the other map too.
  ghost predicate Covers<V>(a: ProtoMap<V>, m: ProtoMap<V>, eq: (V, V) -> Verdict) {
    forall k :: k in m.entries ==> Matches(a, m, eq, k)
  }

  ghost predicate HasMeaning<V>(m: ProtoMap<V>, x: Meaning) {
    exists k :: k in m.entries && NativeMeaning(k) == x
  }

  ghost predicate Agree<V>(a: ProtoMap<V>, b: ProtoMap<V>, eq: (V, V) -> Verdict, k: NativeKey, l: NativeKey) {
    k in a.entries && l in b.entries && NativeMeaning(k) == NativeMeaning(l) ==> eq(a.entries[k], b.entries[l]) == True
  }

  // Equal as maps from what the keys mean: the same meanings, with equal values.
  ghost predicate SameMap<V>(a: ProtoMap<V>, b: ProtoMap<V>, eq: (V, V) -> Verdict) {
    (forall x :: HasMeaning(a, x) <==> HasMeaning(b, x)) && (forall k, l :: Agree(a, b, eq, k, l))
  }

  // The meanings of the keys in a list: as many as there are keys.
  function Meanings(order: seq<NativeKey>): set<Meaning> {
    set i | 0 <= i < |order| :: NativeMeaning(order[i])
  }

  lemma AllButLast(order: seq<NativeKey>)
    requires order != []
    ensures Meanings(order) == Meanings(order[..|order| - 1]) + {NativeMeaning(order[|order| - 1])}
  {
    forall x
      ensures x in Meanings(order) <==> x in Meanings(order[..|order| - 1]) || x == NativeMeaning(order[|order| - 1])
    {
      if x in Meanings(order[..|order| - 1]) {
        var i :| 0 <= i < |order| - 1 && NativeMeaning(order[..|order| - 1][i]) == x;
        assert NativeMeaning(order[i]) == x;
      }
      if x in Meanings(order) {
        var i :| 0 <= i < |order| && NativeMeaning(order[i]) == x;
        if i < |order| - 1 { assert order[..|order| - 1][i] == order[i]; }
      }
    }
  }

  lemma {:induction false} CountMeanings(kind: Kind, order: seq<NativeKey>)
    requires forall i :: 0 <= i < |order| ==> OfKind(order[i], kind)
    requires forall i, j :: 0 <= i < j < |order| ==> order[i] != order[j]
    ensures |Meanings(order)| == |order|
    decreases |order|
  {
    if order != [] {
      var front, last := order[..|order| - 1], order[|order| - 1];
      CountMeanings(kind, front);
      hide OfKind, NativeMeaning;
      AllButLast(order);
      if NativeMeaning(last) in Meanings(front) {
        var i :| 0 <= i < |front| && NativeMeaning(front[i]) == NativeMeaning(last);
        OneKeyPerMeaning(kind, order[i], last);
      }
    }
  }

  lemma {:induction false} CountKeys(order: seq<NativeKey>, keys: set<NativeKey>)
    requires forall k :: k in keys <==> k in order
    requires forall i, j :: 0 <= i < j < |order| ==> order[i] != order[j]
    ensures |keys| == |order|
    decreases |order|
  {
    if order == [] {
      assert keys == {};
    } else {
      var front, last := order[..|order| - 1], order[|order| - 1];
      forall k
        ensures k in keys - {last} <==> k in front
      {
        if k in front { var i :| 0 <= i < |front| && front[i] == k; assert order[i] == k; }
        if k in keys - {last} { var i :| 0 <= i < |order| && order[i] == k; assert front[i] == k; }
      }
      CountKeys(front, keys - {last});
    }
  }

  lemma SubsetOfSameSize<T>(a: set<T>, b: set<T>)
    requires a <= b && |a| == |b|
    ensures a == b
  {
    assert b == a + (b - a) && |b| == |a| + |b - a|;
  }

  // Matching a key is having an entry for its meaning with an equal value.
  lemma MatchesMeaning<V>(a: ProtoMap<V>, m: ProtoMap<V>, eq: (V, V) -> Verdict, k: NativeKey)
    requires Valid(a) && Valid(m) && k in m.entries
    ensures Matches(a, m, eq, k) <==>
            exists l :: l in a.entries && NativeMeaning(l) == NativeMeaning(k) && eq(m.entries[k], a.entries[l]) == True
  {
    NativeOfCel(m.kind, k);
    FindIffSameMeaning(a, ToCelKey(m.kind, k));
  }

  /** Although only one map is iterated: equal iff the two are equal as maps, by the pigeonhole principle. */
  lemma EqualIffSameMap<V>(m: ProtoMap<V>, a: ProtoMap<V>, eq: (V, V) -> Verdict)
    requires Valid(m) && Valid(a)
    ensures |m.entries| == |a.entries| && Covers(a, m, eq) <==> SameMap(m, a, eq)
  {
    CountMeanings(m.kind, m.order);
    CountMeanings(a.kind, a.order);
    CountKeys(m.order, m.entries.Keys);
    CountKeys(a.order, a.entries.Keys);
    if |m.entries| == |a.entries| && Covers(a, m, eq) { CoveringIsSame(m, a, eq); }
    if SameMap(m, a, eq) { SameCovers(m, a, eq); }
  }

  lemma MeaningsOf<V>(m: ProtoMap<V>, x: Meaning)
    requires Valid(m)
    ensures x in Meanings(m.order) <==> HasMeaning(m, x)
  {
    if x in Meanings(m.order) {
      var i :| 0 <= i < |m.order| && NativeMeaning(m.order[i]) == x;
      assert m.order[i] in m.entries;
    }
    if HasMeaning(m, x) {
      var k :| k in m.entries && NativeMeaning(k) == x;
      assert k in m.order;
    }
  }

  lemma CoveringIsSame<V>(m: ProtoMap<V>, a: ProtoMap<V>, eq: (V, V) -> Verdict)
    requires Valid(m) && Valid(a) && |Meanings(m.order)| == |Meanings(a.order)| && Covers(a, m, eq)
    ensures SameMap(m, a, eq)
  {
    hide Valid, Matches, Meanings;
    forall x | HasMeaning(m, x)
      ensures HasMeaning(a, x)
    {
      var k :| k in m.entries && NativeMeaning(k) == x;
      MatchesMeaning(a, m, eq, k);
    }
    forall x
      ensures x in Meanings(m.order) <==> HasMeaning(m, x)
      ensures x in Meanings(a.order) <==> HasMeaning(a, x)
    {
      MeaningsOf(m, x);
      MeaningsOf(a, x);
    }
    SubsetOfSameSize(Meanings(m.order), Meanings(a.order));
    forall k, l
      ensures Agree(m, a, eq, k, l)
    {
      if k in m.entries && l in a.entries && NativeMeaning(k) == NativeMeaning(l) { CoveredAgree(m, a, eq, k, l); }
    }
  }

  lemma CoveredAgree<V>(m: ProtoMap<V>, a: ProtoMap<V>, eq: (V, V) -> Verdict, k: NativeKey, l: NativeKey)
    requires Valid(m) && Valid(a) && k in m.entries && l in a.entries && NativeMeaning(k) == NativeMeaning(l)
    requires Matches(a, m, eq, k)
    ensures eq(m.entries[k], a.entries[l]) == True
  {
    MatchesMeaning(a, m, eq, k);
    var l' :| l' in a.entries && NativeMeaning(l') == NativeMeaning(k) && eq(m.entries[k], a.entries[l']) == True;
    OneKeyPerMeaning(a.kind, l, l');
  }

  lemma SameCovers<V>(m: ProtoMap<V>, a: ProtoMap<V>, eq: (V, V) -> Verdict)
    requires Valid(m) && Valid(a) && SameMap(m, a, eq)
    ensures Covers(a, m, eq) && Meanings(m.order) == Meanings(a.order)
  {
    hide Valid, Matches, Meanings;
    forall k | k in m.entries
      ensures Matches(a, m, eq, k)
    {
      assert HasMeaning(m, NativeMeaning(k)) && HasMeaning(a, NativeMeaning(k));
      var l :| l in a.entries && NativeMeaning(l) == NativeMeaning(k);
      assert Agree(m, a, eq, k, l);
      MatchesMeaning(a, m, eq, k);
    }
    forall x
      ensures x in Meanings(m.order) <==> x in Meanings(a.order)
    {
      MeaningsOf(m, x);
      MeaningsOf(a, x);
    }
  }

  /** So comparing is symmetric when comparing values is, whatever integer kinds the two maps have for keys. */
  lemma EqualIsSymmetric<V>(m: ProtoMap<V>, a: ProtoMap<V>, eq: (V, V) -> Verdict)
    requires Valid(m) && Valid(a) && forall v, w :: eq(v, w) == eq(w, v)
    ensures |m.entries| == |a.entries| && Covers(a, m, eq) <==> |a.entries| == |m.entries| && Covers(m, a, eq)
  {
    hide Covers, Valid;
    EqualIffSameMap(m, a, eq);
    EqualIffSameMap(a, m, eq);
    forall k, l
      ensures Agree(m, a, eq, k, l) <==> Agree(a, m, eq, l, k)
    {
    }
  }

  /* ---- Iteration ---- */

  class KeyIterator {
    const kind: Kind
    const keys: seq<NativeKey>
    var idx: nat

    ghost predicate Valid()
      reads this
    {
      idx <= |keys|
    }

    constructor <V>(m: ProtoMap<V>)
      ensures Valid() && kind == m.kind && keys == m.order && idx == 0
    {
      var ks: seq<NativeKey> := [];
      for i := 0 to |m.order|
        invariant ks == m.order[..i]
      {
        ks := ks + [m.order[i]];
      }
      kind, keys, idx := m.kind, ks, 0;
    }

    function HasNext(): bool
      reads this
    {
      idx < |keys|
    }

    /** The next key of the map in its CEL form; nil behind the last one. */
    method Next() returns (key: Option<CelKey>)
      requires Valid()
      modifies this
      ensures Valid() && idx == if old(HasNext()) then old(idx) + 1 else old(idx)
      ensures key == if old(HasNext()) then Some(ToCelKey(kind, keys[old(idx)])) else None
    {
      if idx < |keys| {
        var k := keys[idx];
        idx := idx + 1;
        return Some(ToCelKey(kind, k));
      }
      return None;
    }
  }

  /** Whatever a map's iterator yields is found in the map, as the entry of the key it stands for. */
  lemma IteratedKeysAreFound<V>(m: ProtoMap<V>, i: nat)
    requires Valid(m) && i < |m.order|
    ensures InDomain(ToCelKey(m.kind, m.order[i]))
    ensures Find(m, ToCelKey(m.kind, m.order[i])) == Some(m.entries[m.order[i]])
  {
    NativeOfCel(m.kind, m.order[i]);
    FindIffSameMeaning(m, ToCelKey(m.kind, m.order[i]));
  }
}
