/** CNktDvEngDatabase: looking up the objects of the type database by class and name.

A text is the sequence of its characters without the terminating zero; characters are codes. The
two indexes are what qsort_s makes of the numbers of the objects with the comparators below.
*/
module Database {
  import opened Options

  type Char = nat
  type Text = seq<Char>

  datatype HResult = S_OK | E_POINTER | E_INVALIDARG

  const LAST_CLASS: int := 13
  const CLASSES: nat := 15  // clsNull, which is -1, to clsMAX - 1, and one more

  datatype DbObject = DbObject(nClass: int, name: Text, namespace_: Text)

  ghost predicate NoZero(s: Text) {
    forall i :: 0 <= i < |s| ==> s[i] != 0
  }

  // --- Comparison

  /** wcscmp: the lexicographic order, as -1, 0 or 1. */
  function Compare(a: Text, b: Text): (r: int)
    ensures -1 <= r <= 1
  {
    if a == [] then if b == [] then 0 else -1
    else if b == [] then 1
    else if a[0] < b[0] then -1
    else if a[0] > b[0] then 1
    else Compare(a[1..], b[1..])
  }

  lemma {:induction false} CompareEqual(a: Text, b: Text)
    ensures Compare(a, b) == 0 <==> a == b
  {
    if a != [] && b != [] {
      CompareEqual(a[1..], b[1..]);
      assert a == [a[0]] + a[1..] && b == [b[0]] + b[1..];
    }
  }

  lemma {:induction false} CompareOpposite(a: Text, b: Text)
    ensures Compare(a, b) == -Compare(b, a)
  {
    if a != [] && b != [] { CompareOpposite(a[1..], b[1..]); }
  }

  lemma {:induction false} CompareTransitive(a: Text, b: Text, c: Text)
    ensures Compare(a, b) <= 0 && Compare(b, c) <= 0 ==> Compare(a, c) <= 0
    ensures Compare(a, b) <= 0 && Compare(b, c) < 0 ==> Compare(a, c) < 0
    ensures Compare(a, b) < 0 && Compare(b, c) <= 0 ==> Compare(a, c) < 0
  {
    if a != [] && b != [] && c != [] { CompareTransitive(a[1..], b[1..], c[1..]); }
  }

  /** a is before b: at the first difference it has the smaller character, or it ends there. */
  ghost predicate Before(a: Text, b: Text) {
    exists k: nat :: SameTo(a, b, k) && k < |b| && (k == |a| || a[k] < b[k])
  }

  ghost predicate SameTo(a: Text, b: Text, k: nat) {
    k <= |a| && k <= |b| && forall i :: 0 <= i < k ==> a[i] == b[i]
  }

  /** The comparison tells the order of character codes. */
  lemma {:induction false} CompareMeans(a: Text, b: Text)
    ensures Compare(a, b) == -1 <==> Before(a, b)
    ensures Compare(a, b) == 1 <==> Before(b, a)
  {
    CompareOpposite(a, b);
    CompareBefore(a, b);
    CompareBefore(b, a);
  }

  lemma {:induction false} CompareBefore(a: Text, b: Text)
    ensures Compare(a, b) == -1 <==> Before(a, b)
    decreases |a|
  {
    if a != [] && b != [] && a[0] == b[0] {
      CompareBefore(a[1..], b[1..]);
      if Before(a, b) {
        var k: nat :| SameTo(a, b, k) && k < |b| && (k == |a| || a[k] < b[k]);
        assert SameTo(a[1..], b[1..], k - 1) && (k == |a| || a[1..][k - 1] < b[1..][k - 1]);
      }
      if Before(a[1..], b[1..]) {
        var k: nat :| SameTo(a[1..], b[1..], k) && k < |b| - 1 && (k == |a| - 1 || a[1..][k] < b[1..][k]);
        assert forall i :: 0 <= i < k ==> a[i + 1] == a[1..][i] && b[i + 1] == b[1..][i];
        assert SameTo(a, b, k + 1) && (k + 1 == |a| || a[k + 1] < b[k + 1]);
      }
    } else if b != [] && (a == [] || a[0] < b[0]) {
      assert SameTo(a, b, 0);
    }
  }

  /** The character at a position of a string that a zero ends. */
  function CharAt(s: Text, i: nat): Char
    requires i <= |s|
  {
    if i < |s| then s[i] else 0
  }

  /** wcsncmp of a piece of a text, whole, with a string: it stops where both have a zero. */
  function Wcsncmp(a: Text, b: Text): int {
    if a == [] then 0
    else
      var c := CharAt(b, 0);
      if a[0] != c then (if a[0] < c then -1 else 1) else if c == 0 || b == [] then 0 else Wcsncmp(a[1..], b[1..])
  }

  /** After wcsncmp gave 0, MyStrCmpW reads the string at the length of the piece. */
  ghost predicate ReadsInside(a: Text, b: Text) {
    Wcsncmp(a, b) == 0 ==> |a| <= |b|
  }

  /** That is inside every string that can be stored if and only if the piece holds no zero. */
  lemma ReadsInsideIff(a: Text)
    ensures NoZero(a) <==> forall b: Text :: NoZero(b) ==> ReadsInside(a, b)
  {
    if NoZero(a) {
      forall b: Text | NoZero(b) ensures ReadsInside(a, b) {
        WcsncmpTells(a, b);
      }
    } else {
      var z := FirstZero(a);
      StopsAtZero(a, z);
      assert NoZero(a[..z]) && !ReadsInside(a, a[..z]);
    }
  }

  lemma {:induction false} WcsncmpTells(a: Text, b: Text)
    requires NoZero(a) && NoZero(b)
    ensures Wcsncmp(a, b) != 0 ==> Compare(a, b) == Wcsncmp(a, b)
    ensures Wcsncmp(a, b) == 0 ==> |a| <= |b| && Compare(a, b) == if |a| == |b| then 0 else -1
    decreases |a|
  {
    if a != [] && b != [] { WcsncmpTells(a[1..], b[1..]); }
  }

  lemma {:induction false} FirstZero(a: Text) returns (z: nat)
    requires !NoZero(a)
    ensures z < |a| && a[z] == 0 && NoZero(a[..z])
    decreases |a|
  {
    if a[0] == 0 {
      z := 0;
    } else {
      var i :| 0 <= i < |a| && a[i] == 0;
      assert a[1..][i - 1] == 0;
      var y := FirstZero(a[1..]);
      z := y + 1;
      assert forall j :: 1 <= j < z ==> a[j] == a[1..][..y][j - 1];
    }
  }

  lemma {:induction false} StopsAtZero(a: Text, z: nat)
    requires z < |a| && a[z] == 0 && NoZero(a[..z])
    ensures Wcsncmp(a, a[..z]) == 0
    decreases z
  {
    if z > 0 {
      assert a[..z][0] == a[0] && a[..z][1..] == a[1..][..z - 1];
      StopsAtZero(a[1..], z - 1);
    }
  }

  /** A piece of a text, without an end of its own, against a whole string: wcsncmp over the length
      of the piece, and then the string must end there, too. A zero inside the piece would let it
      read behind the end of a string (see ReadsInsideIff). */
  method MyStrCmpW(szStr1: Text, szStr2: Text) returns (nRes: int)
    requires NoZero(szStr1) && NoZero(szStr2)
    ensures nRes == Compare(szStr1, szStr2)
  {
    WcsncmpTells(szStr1, szStr2);
    nRes := Wcsncmp(szStr1, szStr2);
    if nRes == 0 && CharAt(szStr2, |szStr1|) != 0 {
      nRes := -1;
    }
  }

  // --- Sorted indexes

  /** SortDbObjectByName. */
  function CompareObjects(a: DbObject, b: DbObject): int {
    if Compare(a.name, b.name) != 0 then Compare(a.name, b.name) else Compare(a.namespace_, b.namespace_)
  }

  /** What is searched for: a name, and a namespace unless any will do. */
  datatype Key = Key(name: Text, namespace_: Option<Text>)

  /** SearchDbObjectByName. */
  function CompareKey(k: Key, o: DbObject): int {
    if Compare(k.name, o.name) != 0 || k.namespace_.None? then Compare(k.name, o.name)
    else Compare(k.namespace_.value, o.namespace_)
  }

  predicate Matches(k: Key, o: DbObject) {
    o.name == k.name && (k.namespace_.Some? ==> o.namespace_ == k.namespace_.value)
  }

  lemma CompareKeyIsMatch(k: Key, o: DbObject)
    ensures CompareKey(k, o) == 0 <==> Matches(k, o)
  {
    CompareEqual(k.name, o.name);
    if k.namespace_.Some? { CompareEqual(k.namespace_.value, o.namespace_); }
  }

  lemma KeyIsMonotone(k: Key, a: DbObject, b: DbObject)
    requires CompareObjects(a, b) <= 0
    ensures CompareKey(k, a) < 0 ==> CompareKey(k, b) < 0
    ensures CompareKey(k, b) > 0 ==> CompareKey(k, a) > 0
  {
    hide Compare;
    NamesAreOrdered(k.name, a.name, b.name);
    CompareEqual(a.name, b.name);
    if k.namespace_.Some? {
      NamesAreOrdered(k.namespace_.value, a.namespace_, b.namespace_);
    }
  }

  lemma NamesAreOrdered(k: Text, a: Text, b: Text)
    ensures Compare(a, b) <= 0 && Compare(k, a) < 0 ==> Compare(k, b) < 0
    ensures Compare(a, b) <= 0 && Compare(k, b) > 0 ==> Compare(k, a) > 0
    ensures Compare(a, b) < 0 && Compare(k, a) <= 0 ==> Compare(k, b) < 0
    ensures Compare(a, b) < 0 && Compare(k, b) >= 0 ==> Compare(k, a) > 0
  {
    hide Compare;
    CompareTransitive(k, a, b);
    CompareTransitive(a, b, k);
    CompareOpposite(k, a);
    CompareOpposite(k, b);
  }

  ghost predicate ValidIndex(objects: seq<DbObject>, index: seq<nat>) {
    forall i :: 0 <= i < |index| ==> index[i] < |objects|
  }

  ghost predicate SortedByName(objects: seq<DbObject>, index: seq<nat>)
    requires ValidIndex(objects, index)
  {
    forall i, j :: 0 <= i < j < |index| ==> CompareObjects(objects[index[i]], objects[index[j]]) <= 0
  }

  /** bsearch_s with SearchDbObjectByName: any match, if there is one. */
  method BSearch(objects: seq<DbObject>, index: seq<nat>, k: Key) returns (r: Option<nat>)
    requires ValidIndex(objects, index) && SortedByName(objects, index)
    ensures r.Some? ==> r.value < |index| && Matches(k, objects[index[r.value]])
    ensures r.None? ==> forall i :: 0 <= i < |index| ==> !Matches(k, objects[index[i]])
  {
    hide CompareObjects, CompareKey, Matches;
    var lo, hi := 0, |index|;
    while lo < hi
      invariant 0 <= lo <= hi <= |index|
      invariant forall i :: 0 <= i < lo ==> CompareKey(k, objects[index[i]]) > 0
      invariant forall i :: hi <= i < |index| ==> CompareKey(k, objects[index[i]]) < 0
    {
      var mid := (lo + hi) / 2;
      var c := CompareKey(k, objects[index[mid]]);
      if c == 0 {
        CompareKeyIsMatch(k, objects[index[mid]]);
        return Some(mid);
      }
      if c > 0 {
        forall i | lo <= i < mid { KeyIsMonotone(k, objects[index[i]], objects[index[mid]]); }
        lo := mid + 1;
      } else {
        forall i | mid < i < hi { KeyIsMonotone(k, objects[index[mid]], objects[index[i]]); }
        hi := mid;
      }
    }
    forall i | 0 <= i < |index| { CompareKeyIsMatch(k, objects[index[i]]); }
    return None;
  }

  // --- ParseNamespaceAndName

  predicate IsAlphanumeric(c: Char) {
    'A' as nat <= c <= 'Z' as nat || 'a' as nat <= c <= 'z' as nat || IsDigit(c)
  }

  predicate IsDigit(c: Char) {
    '0' as nat <= c <= '9' as nat
  }

  const SPACE: Char := ' ' as nat
  const UNDERSCORE: Char := '_' as nat
  const COLON: Char := ':' as nat
  const PARENTHESIS: Char := '(' as nat

  /** The characters by their codes. */
  lemma CharacterCodes(c: Char)
    ensures IsAlphanumeric(c) <==> 48 <= c <= 57 || 65 <= c <= 90 || 97 <= c <= 122
    ensures IsDigit(c) <==> 48 <= c <= 57
    ensures SPACE == 32 && PARENTHESIS == 40 && COLON == 58 && UNDERSCORE == 95
  {
  }

  /** The first n characters are a namespace: at most 32, underscores and then letters and digits
      that do not begin with a digit, and two colons follow. */
  ghost predicate IsNamespace(r: Text, n: nat) {
    && n + 2 <= |r| && n <= 32 && r[n] == COLON && r[n + 1] == COLON
    && exists u: nat :: u <= n && IsPrefix(r, u, n)
  }

  /** u underscores and then letters and digits, no digit first. */
  ghost predicate IsPrefix(r: Text, u: nat, n: nat) {
    && u <= n <= |r|
    && (forall i :: 0 <= i < u ==> r[i] == UNDERSCORE)
    && (forall i :: u <= i < n ==> IsAlphanumeric(r[i]))
    && (u < n ==> !IsDigit(r[u]))
  }

  /** How far a prefix that a colon ends reaches, and what is at the end of a shorter one. */
  lemma PrefixesAgree(r: Text, u: nat, len: nat, v: nat, m: nat)
    requires IsPrefix(r, u, len) && IsPrefix(r, v, m) && m < |r| && r[m] == COLON
    ensures len <= m
    ensures len < m ==> r[len] == UNDERSCORE || IsAlphanumeric(r[len])
    ensures u == len < m ==> r[len] == UNDERSCORE || !IsDigit(r[len])
    ensures u < len < m ==> r[len] != UNDERSCORE
  {
  }

  lemma NamespaceIsUnique(r: Text, n: nat, m: nat)
    requires IsNamespace(r, n) && IsNamespace(r, m)
    ensures n == m
  {
    var u: nat :| u <= n && IsPrefix(r, u, n);
    var v: nat :| v <= m && IsPrefix(r, v, m);
    PrefixesAgree(r, u, n, v, m);
    PrefixesAgree(r, v, m, u, n);
  }

  /** Where the parts are in the text: the namespace, and the name after it. */
  datatype Parsed = Parsed(namespaceAt: nat, namespaceLen: nat, nameAt: nat, nameLen: nat)

  /** The start of the name, behind the last space before the first parenthesis, if any. */
  ghost predicate IsStart(s: Text, k2: nat) {
    && k2 <= |s|
    && (k2 > 0 ==> s[k2 - 1] == SPACE)
    && PARENTHESIS !in s[..k2]
    && (forall i :: k2 <= i < |s| && s[i] == SPACE ==> PARENTHESIS in s[k2..i])
  }

  /** p splits s. Nothing is lost but what comes before the start, the colons and trailing spaces. */
  ghost predicate Splits(s: Text, p: Parsed) {
    && IsStart(s, p.namespaceAt)
    && p.nameAt + p.nameLen <= |s|
    && p.nameAt == p.namespaceAt + (if p.nameAt == p.namespaceAt then 0 else p.namespaceLen + 2)
    && (p.nameAt == p.namespaceAt ==> p.namespaceLen == 0 && forall n: nat :: !IsNamespace(s[p.namespaceAt..], n))
    && (p.nameAt != p.namespaceAt ==> IsNamespace(s[p.namespaceAt..], p.namespaceLen))
    && (forall i :: p.nameAt + p.nameLen <= i < |s| ==> s[i] == SPACE)
    && (p.nameLen > 0 ==> s[p.nameAt + p.nameLen - 1] != SPACE)
  }

  /** There is one way to split a text. */
  lemma SplitIsUnique(s: Text, p: Parsed, q: Parsed)
    requires Splits(s, p) && Splits(s, q)
    ensures p == q
  {
    hide IsNamespace;
    if p.namespaceAt < q.namespaceAt { StartIsUnique(s, p.namespaceAt, q.namespaceAt); }
    if q.namespaceAt < p.namespaceAt { StartIsUnique(s, q.namespaceAt, p.namespaceAt); }
    if p.nameAt != p.namespaceAt && q.nameAt != q.namespaceAt {
      NamespaceIsUnique(s[p.namespaceAt..], p.namespaceLen, q.namespaceLen);
    }
  }

  lemma StartIsUnique(s: Text, k: nat, j: nat)
    requires IsStart(s, k) && IsStart(s, j)
    ensures !(k < j)
  {
    hide IsStart;
    StartFacts(s, j);
    if k < j { ParenthesisBefore(s, k, j); }
  }

  lemma StartFacts(s: Text, j: nat)
    requires IsStart(s, j)
    ensures j <= |s| && (j > 0 ==> s[j - 1] == SPACE) && PARENTHESIS !in s[..j]
  {
  }

  lemma ParenthesisBefore(s: Text, k: nat, j: nat)
    requires IsStart(s, k) && k < j <= |s| && s[j - 1] == SPACE
    ensures PARENTHESIS in s[..j]
  {
    var i :| 0 <= i < j - 1 - k && s[k..j - 1][i] == PARENTHESIS;
    assert s[..j][k + i] == PARENTHESIS;
  }

  method ParseNamespaceAndName(text: Option<Text>) returns (hRes: HResult, p: Parsed)
    ensures hRes == E_POINTER <==> text.None?
    ensures text.None? ==> p == Parsed(0, 0, 0, 0)
    ensures text.Some? ==> Splits(text.value, p) && (hRes == S_OK <==> p.nameLen > 0)
  {
    hide IsStart, IsNamespace;
    p := Parsed(0, 0, 0, 0);
    if text.None? {
      return E_POINTER, p;
    }
    var s := text.value;
    var k2 := SkipReturnType(s);
    var n := FindNamespace(s[k2..]);
    var nameAt := if n.Some? then k2 + n.value + 2 else k2;
    var nNameLen := |s| - nameAt;
    while nNameLen > 0 && s[nameAt + nNameLen - 1] == SPACE
      invariant 0 <= nNameLen <= |s| - nameAt
      invariant forall i :: nameAt + nNameLen <= i < |s| ==> s[i] == SPACE
    {
      nNameLen := nNameLen - 1;
    }
    p := Parsed(k2, if n.Some? then n.value else 0, nameAt, nNameLen);
    hRes := if nNameLen == 0 then E_INVALIDARG else S_OK;
  }

  method SkipReturnType(s: Text) returns (k2: nat)
    ensures k2 <= |s| && IsStart(s, k2)
  {
    var k := 0;
    while k < |s| && s[k] != PARENTHESIS
      invariant 0 <= k <= |s| && PARENTHESIS !in s[..k]
    {
      assert s[..k + 1] == s[..k] + [s[k]];
      k := k + 1;
    }
    k2 := k;
    while k2 > 0 && s[k2 - 1] != SPACE
      invariant 0 <= k2 <= k
      invariant forall i :: k2 <= i < k ==> s[i] != SPACE
    {
      k2 := k2 - 1;
    }
    assert s[..k2] == s[..k][..k2];
    forall i | k2 <= i < |s| && s[i] == SPACE ensures PARENTHESIS in s[k2..i] {
      assert i > k && s[k2..i][k - k2] == PARENTHESIS;
    }
  }

  /** The two loops over underscores and over letters and digits. */
  method FindNamespace(r: Text) returns (n: Option<nat>)
    ensures n.Some? ==> IsNamespace(r, n.value)
    ensures n.None? ==> forall m: nat :: !IsNamespace(r, m)
  {
    var len: nat := 0;
    while len < |r| && r[len] == UNDERSCORE
      invariant len <= |r| && len <= 32
      invariant forall i :: 0 <= i < len ==> r[i] == UNDERSCORE
    {
      if len >= 32 {
        NoNamespace(r, len, len);
        return None;
      }
      len := len + 1;
    }
    ghost var u := len;
    if len < |r| && IsDigit(r[len]) {
      NoNamespace(r, u, len);
      return None;
    }
    while len < |r|
      invariant len <= |r| && len <= 32 && IsPrefix(r, u, len)
      invariant u == len && len < |r| ==> r[len] != UNDERSCORE && !IsDigit(r[len])
    {
      if |r| - len > 1 && r[len] == COLON && r[len + 1] == COLON {
        break;
      }
      if !IsAlphanumeric(r[len]) {
        NoNamespace(r, u, len);
        return None;
      }
      if len >= 32 {
        NoNamespace(r, u, len);
        return None;
      }
      len := len + 1;
    }
    if len == |r| {
      NoNamespace(r, u, len);
      return None;
    }
    n := Some(len);
  }

  /** Why no part of the text is a namespace when the loops give up at position len. */
  lemma NoNamespace(r: Text, u: nat, len: nat)
    requires u <= len <= |r| && len <= 32 && IsPrefix(r, u, len)
    requires len == |r|
          || (u == len && IsDigit(r[len]))
          || (len == 32 && (r[len] == UNDERSCORE || IsAlphanumeric(r[len])))
          || (r[len] != UNDERSCORE && !IsAlphanumeric(r[len]) &&
              !(len + 1 < |r| && r[len] == COLON && r[len + 1] == COLON))
          || (r[len] == UNDERSCORE && u < len)
    ensures forall m: nat :: !IsNamespace(r, m)
  {
    forall m: nat | IsNamespace(r, m) ensures false {
      var v: nat :| v <= m && IsPrefix(r, v, m);
      PrefixesAgree(r, u, len, v, m);
    }
  }

  /** A text without a parenthesis that ends in a space names nothing: the space counts as the one
      after a return type, and so is not trimmed. */
  lemma TrailingSpaceNamesNothing(s: Text, p: Parsed)
    requires Splits(s, p) && s != [] && s[|s| - 1] == SPACE && PARENTHESIS !in s
    ensures p.namespaceAt == |s| && p.nameLen == 0
  {
  }

  // --- FindObjectByClassAndName

  ghost predicate Has(objects: seq<DbObject>, index: seq<nat>, k: Key)
    requires ValidIndex(objects, index)
  {
    exists i :: 0 <= i < |index| && Matches(k, objects[index[i]])
  }

  /** The object at position i is one that matches. */
  ghost predicate IsMatchAt(objects: seq<DbObject>, index: seq<nat>, k: Key, i: nat)
    requires ValidIndex(objects, index)
  {
    i < |index| && Matches(k, objects[index[i]])
  }

  /** It is the first one. */
  ghost predicate IsFirstAt(objects: seq<DbObject>, index: seq<nat>, k: Key, i: nat)
    requires ValidIndex(objects, index)
  {
    IsMatchAt(objects, index, k, i) && forall j :: 0 <= j < i ==> !Matches(k, objects[index[j]])
  }

  /** The rule for a name without a namespace: the object in the empty namespace; else the first
      one of that name in any. */
  ghost predicate PlainRule(objects: seq<DbObject>, index: seq<nat>, name: Text, r: Option<nat>)
    requires ValidIndex(objects, index)
  {
    if Has(objects, index, Key(name, Some([]))) then r.Some? && IsMatchAt(objects, index, Key(name, Some([])), r.value)
    else if Has(objects, index, Key(name, None)) then r.Some? && IsFirstAt(objects, index, Key(name, None), r.value)
    else r == None
  }

  /** The rule for a split text: the object of that name in that namespace; else, if there is a
      namespace, the whole text as a name without one. */
  ghost predicate LookupRule(objects: seq<DbObject>, index: seq<nat>, s: Text, p: Parsed, r: Option<nat>)
    requires ValidIndex(objects, index) && p.nameAt + p.nameLen <= |s|
    requires p.namespaceAt + p.namespaceLen <= |s| && p.namespaceAt <= p.nameAt
  {
    var name := s[p.nameAt..p.nameAt + p.nameLen];
    var ns := s[p.namespaceAt..p.namespaceAt + p.namespaceLen];
    if ns == [] then PlainRule(objects, index, name, r)
    else if Has(objects, index, Key(name, Some(ns))) then
      r.Some? && IsMatchAt(objects, index, Key(name, Some(ns)), r.value)
    else PlainRule(objects, index, s[p.namespaceAt..p.nameAt + p.nameLen], r)
  }

  /** From a match by name, up to the first one. */
  method FirstOfName(objects: seq<DbObject>, index: seq<nat>, name: Text, at: nat) returns (i: nat)
    requires ValidIndex(objects, index) && SortedByName(objects, index) && NoZero(name)
    requires forall j :: 0 <= j < |objects| ==> NoZero(objects[j].name)
    requires IsMatchAt(objects, index, Key(name, None), at)
    ensures IsFirstAt(objects, index, Key(name, None), i)
  {
    hide Compare, CompareKey, CompareObjects;
    i := at;
    while i > 0
      invariant i <= at && IsMatchAt(objects, index, Key(name, None), i)
      decreases i
    {
      var c := MyStrCmpW(name, objects[index[i - 1]].name);
      CompareEqual(name, objects[index[i - 1]].name);
      if c != 0 {
        break;
      }
      i := i - 1;
    }
    forall j | 0 <= j < i ensures !Matches(Key(name, None), objects[index[j]]) {
      NamesAreContiguous(objects, index, name, j, i - 1, i);
    }
  }

  /** The first of a name is the one with the least namespace. */
  lemma FirstIsLeast(objects: seq<DbObject>, index: seq<nat>, name: Text, i: nat, j: nat)
    requires ValidIndex(objects, index) && SortedByName(objects, index)
    requires IsFirstAt(objects, index, Key(name, None), i) && IsMatchAt(objects, index, Key(name, None), j)
    ensures !Before(objects[index[j]].namespace_, objects[index[i]].namespace_)
  {
    hide Before, SortedByName, Compare;
    CompareMeans(objects[index[i]].namespace_, objects[index[j]].namespace_);
    CompareEqual(objects[index[i]].name, objects[index[j]].name);
    CompareEqual(objects[index[i]].namespace_, objects[index[j]].namespace_);
    if i < j { OrderedPair(objects, index, i, j); }
  }

  lemma OrderedPair(objects: seq<DbObject>, index: seq<nat>, i: nat, j: nat)
    requires ValidIndex(objects, index) && SortedByName(objects, index) && i < j < |index|
    ensures CompareObjects(objects[index[i]], objects[index[j]]) <= 0
  {
  }

  lemma NamesAreContiguous(objects: seq<DbObject>, index: seq<nat>, name: Text, i: nat, j: nat, k: nat)
    requires ValidIndex(objects, index) && SortedByName(objects, index) && i <= j <= k < |index|
    requires Matches(Key(name, None), objects[index[k]])
    requires !Matches(Key(name, None), objects[index[j]])
    ensures !Matches(Key(name, None), objects[index[i]])
  {
    hide Compare, CompareKey, CompareObjects, Matches;
    var key := Key(name, None);
    CompareKeyIsMatch(key, objects[index[i]]);
    CompareKeyIsMatch(key, objects[index[j]]);
    CompareKeyIsMatch(key, objects[index[k]]);
    if i < j { KeyIsMonotone(key, objects[index[i]], objects[index[j]]); }
    if j < k { KeyIsMonotone(key, objects[index[j]], objects[index[k]]); }
  }

  ghost predicate NamesOk(objects: seq<DbObject>) {
    forall j :: 0 <= j < |objects| ==> NoZero(objects[j].name) && NoZero(objects[j].namespace_)
  }

  /** The search in a sorted part of an index. It ends after one retry at most, and its result is
      what the rule says. */
  method Lookup(objects: seq<DbObject>, index: seq<nat>, s: Text, p: Parsed) returns (r: Option<nat>)
    requires ValidIndex(objects, index) && SortedByName(objects, index) && NamesOk(objects)
    requires p.nameAt + p.nameLen <= |s| && p.namespaceAt + p.namespaceLen <= |s| && p.namespaceAt <= p.nameAt
    requires NoZero(s[p.namespaceAt..])
    ensures LookupRule(objects, index, s, p, r)
  {
    hide SortedByName, ValidIndex, NamesOk, Matches, NoZero;
    var name, ns := s[p.nameAt..p.nameAt + p.nameLen], s[p.namespaceAt..p.namespaceAt + p.namespaceLen];
    NoZeroPart(s, p.namespaceAt, p.nameAt, p.nameAt + p.nameLen);
    NoZeroPart(s, p.namespaceAt, p.namespaceAt, p.nameAt + p.nameLen);
    if ns != [] {
      r := BSearch(objects, index, Key(name, Some(ns)));
      HasIff(objects, index, Key(name, Some(ns)), r);
      if r.Some? {
        return r;
      }
      name := s[p.namespaceAt..p.nameAt + p.nameLen];
    }
    r := LookupPlain(objects, index, name);
  }

  method LookupPlain(objects: seq<DbObject>, index: seq<nat>, name: Text) returns (r: Option<nat>)
    requires ValidIndex(objects, index) && SortedByName(objects, index) && NamesOk(objects) && NoZero(name)
    ensures PlainRule(objects, index, name, r)
  {
    hide SortedByName, ValidIndex, NamesOk, Matches, NoZero, IsFirstAt;
    r := BSearch(objects, index, Key(name, Some([])));
    HasIff(objects, index, Key(name, Some([])), r);
    if r.None? {
      r := BSearch(objects, index, Key(name, None));
      HasIff(objects, index, Key(name, None), r);
      if r.Some? {
        NameOfEach(objects);
        var i := FirstOfName(objects, index, name, r.value);
        r := Some(i);
      }
    }
  }

  lemma NameOfEach(objects: seq<DbObject>)
    requires NamesOk(objects)
    ensures forall j :: 0 <= j < |objects| ==> NoZero(objects[j].name)
  {
  }

  lemma HasIff(objects: seq<DbObject>, index: seq<nat>, k: Key, r: Option<nat>)
    requires ValidIndex(objects, index)
    requires r.Some? ==> r.value < |index| && Matches(k, objects[index[r.value]])
    requires r.None? ==> forall i :: 0 <= i < |index| ==> !Matches(k, objects[index[i]])
    ensures Has(objects, index, k) <==> r.Some?
    ensures r.Some? ==> IsMatchAt(objects, index, k, r.value)
  {
  }

  lemma NoZeroPart(s: Text, start: nat, a: nat, b: nat)
    requires start <= a <= b <= |s| && NoZero(s[start..])
    ensures NoZero(s[a..b])
  {
    assert forall i :: 0 <= i < b - a ==> s[a..b][i] == s[start..][a - start + i];
  }

  // --- The class table

  datatype ClassPos = ClassPos(nStart: nat, nCount: nat)

  /** A class as SIZE_T: clsNull comes last. */
  function ClassKey(nClass: int): int {
    if nClass < 0 then nClass + 0x1_0000_0000_0000_0000 else nClass
  }

  /** SortDbObjectByClassAndName. */
  function CompareByClass(a: DbObject, b: DbObject): int {
    if ClassKey(a.nClass) != ClassKey(b.nClass) then (if ClassKey(a.nClass) < ClassKey(b.nClass) then -1 else 1)
    else CompareObjects(a, b)
  }

  ghost predicate SortedByClass(objects: seq<DbObject>, index: seq<nat>)
    requires ValidIndex(objects, index)
  {
    forall i, j :: 0 <= i < j < |index| ==> CompareByClass(objects[index[i]], objects[index[j]]) <= 0
  }

  ghost predicate ClassesOk(objects: seq<DbObject>) {
    forall i :: 0 <= i < |objects| ==> -1 <= objects[i].nClass <= LAST_CLASS
  }

  function PosOf(pos: seq<ClassPos>, nClass: int): ClassPos
    requires |pos| == CLASSES && -1 <= nClass <= LAST_CLASS
  {
    pos[nClass + 1]
  }

  ghost predicate InRange(p: ClassPos, i: int) {
    p.nStart <= i < p.nStart + p.nCount
  }

  /** The entry of each class says which part of the index is its. */
  ghost predicate Partition(objects: seq<DbObject>, index: seq<nat>, pos: seq<ClassPos>)
    requires ValidIndex(objects, index)
  {
    && |pos| == CLASSES
    && (forall c :: -1 <= c <= LAST_CLASS ==> PosOf(pos, c).nStart + PosOf(pos, c).nCount <= |index|)
    && forall c, i :: -1 <= c <= LAST_CLASS && 0 <= i < |index| ==>
        (objects[index[i]].nClass == c <==> InRange(PosOf(pos, c), i))
  }

  /** The table holds for the first n entries of the index. */
  ghost predicate PartitionTo(objects: seq<DbObject>, index: seq<nat>, pos: seq<ClassPos>, n: nat)
    requires ValidIndex(objects, index) && n <= |index|
  {
    && |pos| == CLASSES
    && (forall c :: 0 <= c < CLASSES ==> pos[c].nStart + pos[c].nCount <= n)
    && forall c, i :: 0 <= c < CLASSES && 0 <= i < n ==> (objects[index[i]].nClass + 1 == c <==> InRange(pos[c], i))
  }

  /** The loop of Initialize over the index sorted by class. The entries of absent classes keep the
      zeros of nktMemSet. */
  method ClassTable(objects: seq<DbObject>, index: seq<nat>) returns (sDbObjectClassPos: array<ClassPos>)
    requires ValidIndex(objects, index) && SortedByClass(objects, index) && ClassesOk(objects)
    ensures Partition(objects, index, sDbObjectClassPos[..])
  {
    hide CompareObjects;
    sDbObjectClassPos := new ClassPos[CLASSES](i => ClassPos(0, 0));
    var nLastClass := -1;
    var i := 0;
    while i < |index|
      invariant 0 <= i <= |index|
      invariant PartitionTo(objects, index, sDbObjectClassPos[..], i)
      invariant nLastClass == if i == 0 then -1 else objects[index[i - 1]].nClass
    {
      var nCurrClass := objects[index[i]].nClass;
      ghost var was := sDbObjectClassPos[..];
      if nCurrClass != nLastClass {
        sDbObjectClassPos[nCurrClass + 1] := ClassPos(i, 1);
        nLastClass := nCurrClass;
      } else {
        sDbObjectClassPos[nLastClass + 1] := ClassPos(sDbObjectClassPos[nLastClass + 1].nStart,
            sDbObjectClassPos[nLastClass + 1].nCount + 1);
      }
      NextEntry(objects, index, was, i);
      assert sDbObjectClassPos[..] == was[nCurrClass + 1 := NextPos(objects, index, was, i)];
      i := i + 1;
    }
    PartitionToAll(objects, index, sDbObjectClassPos[..]);
  }

  lemma PartitionToAll(objects: seq<DbObject>, index: seq<nat>, pos: seq<ClassPos>)
    requires ValidIndex(objects, index) && PartitionTo(objects, index, pos, |index|)
    ensures Partition(objects, index, pos)
  {
  }

  ghost function NextPos(objects: seq<DbObject>, index: seq<nat>, pos: seq<ClassPos>, i: nat): ClassPos
    requires ValidIndex(objects, index) && ClassesOk(objects) && i < |index| && |pos| == CLASSES
  {
    var c := objects[index[i]].nClass;
    if i == 0 || objects[index[i - 1]].nClass != c then ClassPos(i, 1)
    else ClassPos(pos[c + 1].nStart, pos[c + 1].nCount + 1)
  }

  lemma NextEntry(objects: seq<DbObject>, index: seq<nat>, pos: seq<ClassPos>, n: nat)
    requires ValidIndex(objects, index) && SortedByClass(objects, index) && ClassesOk(objects) && n < |index|
    requires PartitionTo(objects, index, pos, n)
    ensures PartitionTo(objects, index, pos[objects[index[n]].nClass + 1 := NextPos(objects, index, pos, n)], n + 1)
  {
    hide CompareObjects, CompareByClass;
    var c := objects[index[n]].nClass;
    if n == 0 || objects[index[n - 1]].nClass != c {
      forall i | 0 <= i < n ensures objects[index[i]].nClass != c {
        ClassIsNew(objects, index, i, n);
      }
    } else {
      assert InRange(pos[c + 1], n - 1);
    }
  }

  /** Sorted by class, equal classes stand together. */
  lemma ClassIsNew(objects: seq<DbObject>, index: seq<nat>, i: nat, n: nat)
    requires ValidIndex(objects, index) && SortedByClass(objects, index) && ClassesOk(objects)
    requires i < n < |index| && objects[index[n - 1]].nClass != objects[index[n]].nClass
    ensures objects[index[i]].nClass != objects[index[n]].nClass
  {
    hide CompareObjects;
    assert CompareByClass(objects[index[n - 1]], objects[index[n]]) <= 0;
    assert i == n - 1 || CompareByClass(objects[index[i]], objects[index[n - 1]]) <= 0;
    assert -1 <= objects[index[i]].nClass && -1 <= objects[index[n]].nClass && -1 <= objects[index[n - 1]].nClass;
  }

  /** The index is in the order of the class numbers, with the objects of clsNull, which is -1, at the end. */
  lemma ClassesAscend(objects: seq<DbObject>, index: seq<nat>, i: nat, j: nat)
    requires ValidIndex(objects, index) && SortedByClass(objects, index) && ClassesOk(objects) && i < j < |index|
    ensures var a, b := objects[index[i]].nClass, objects[index[j]].nClass;
      && (a == -1 ==> b == -1) && (a <= b || b == -1)
      && (a == b ==> CompareObjects(objects[index[i]], objects[index[j]]) <= 0)
  {
    hide CompareObjects;
    assert CompareByClass(objects[index[i]], objects[index[j]]) <= 0;
    assert -1 <= objects[index[i]].nClass && -1 <= objects[index[j]].nClass;
  }

  // --- The database

  datatype Database = Database(objects: seq<DbObject>, nameIndex: seq<nat>, classIndex: seq<nat>,
      classPos: seq<ClassPos>)

  ghost predicate IsPermutation(n: nat, index: seq<nat>) {
    && |index| == n
    && (forall i :: 0 <= i < n ==> index[i] < n)
    && (forall i, j :: 0 <= i < j < n ==> index[i] != index[j])
    && forall x :: 0 <= x < n ==> x in index
  }

  /** The state Initialize leaves. */
  ghost predicate Initialized(db: Database) {
    && NamesOk(db.objects) && ClassesOk(db.objects)
    && IsPermutation(|db.objects|, db.nameIndex) && IsPermutation(|db.objects|, db.classIndex)
    && SortedByName(db.objects, db.nameIndex) && SortedByClass(db.objects, db.classIndex)
    && Partition(db.objects, db.classIndex, db.classPos)
  }

  /** The end of Initialize: the two arguments are what qsort_s returns. */
  method Initialize(objects: seq<DbObject>, nameIndex: seq<nat>, classIndex: seq<nat>) returns (db: Database)
    requires NamesOk(objects) && ClassesOk(objects)
    requires IsPermutation(|objects|, nameIndex) && IsPermutation(|objects|, classIndex)
    requires SortedByName(objects, nameIndex) && SortedByClass(objects, classIndex)
    ensures Initialized(db) && db.objects == objects && db.nameIndex == nameIndex && db.classIndex == classIndex
  {
    hide SortedByName, SortedByClass, NamesOk;
    var pos := ClassTable(objects, classIndex);
    db := Database(objects, nameIndex, classIndex, pos[..]);
  }

  /** The part of the class index for one class; the whole name index for clsMAX, here None. */
  function IndexOf(db: Database, nClass: Option<int>): seq<nat>
    requires Initialized(db) && (nClass.Some? ==> -1 <= nClass.value <= LAST_CLASS)
  {
    if nClass.None? then db.nameIndex
    else
      var p := PosOf(db.classPos, nClass.value);
      db.classIndex[p.nStart..p.nStart + p.nCount]
  }

  lemma IndexOfIsSorted(db: Database, nClass: Option<int>)
    requires Initialized(db) && (nClass.Some? ==> -1 <= nClass.value <= LAST_CLASS)
    ensures ValidIndex(db.objects, IndexOf(db, nClass)) && SortedByName(db.objects, IndexOf(db, nClass))
  {
    hide CompareObjects, NamesOk;
    if nClass.Some? {
      var c := nClass.value;
      var p, part := PosOf(db.classPos, c), IndexOf(db, nClass);
      forall i, j | 0 <= i < j < |part| ensures CompareObjects(db.objects[part[i]], db.objects[part[j]]) <= 0 {
        assert InRange(p, p.nStart + i) && InRange(p, p.nStart + j);
        assert CompareByClass(db.objects[db.classIndex[p.nStart + i]], db.objects[db.classIndex[p.nStart + j]]) <= 0;
      }
    }
  }

  /** The part for a class holds exactly the objects of that class. */
  lemma IndexOfIsComplete(db: Database, nClass: Option<int>, x: nat)
    requires Initialized(db) && (nClass.Some? ==> -1 <= nClass.value <= LAST_CLASS) && x < |db.objects|
    ensures x in IndexOf(db, nClass) <==> nClass.None? || db.objects[x].nClass == nClass.value
  {
    hide SortedByClass, SortedByName, NamesOk;
    if nClass.Some? {
      var c := nClass.value;
      var p, part := PosOf(db.classPos, c), IndexOf(db, nClass);
      if db.objects[x].nClass == c {
        assert x in db.classIndex;
        var i :| 0 <= i < |db.classIndex| && db.classIndex[i] == x;
        assert InRange(p, i);
        assert part[i - p.nStart] == x;
      }
      if x in part {
        var j :| 0 <= j < |part| && part[j] == x;
        assert InRange(p, p.nStart + j);
      }
    } else {
      assert x in db.nameIndex;
    }
  }

  /** From the start of the name on, the text holds no zero. */
  ghost predicate NoZeroName(s: Text) {
    forall k2: nat :: IsStart(s, k2) ==> NoZero(s[k2..])
  }

  /** The number of the object that the class and the text name, by the staged rule; none when the
      text has no name. */
  method FindObjectByClassAndName(db: Database, nClass: Option<int>, text: Option<Text>)
      returns (r: Option<nat>, ghost p: Parsed)
    requires Initialized(db) && (nClass.Some? ==> -1 <= nClass.value <= LAST_CLASS)
    requires text.Some? ==> NoZeroName(text.value)
    ensures text.None? ==> r == None
    ensures text.Some? ==> Splits(text.value, p)
    ensures text.Some? && p.nameLen == 0 ==> r == None
    ensures text.Some? && p.nameLen > 0 ==>
      var index := IndexOf(db, nClass);
      && ValidIndex(db.objects, index)
      && ((r == None && LookupRule(db.objects, index, text.value, p, None))
       || (r.Some? && exists i: nat ::
             i < |index| && index[i] == r.value && LookupRule(db.objects, index, text.value, p, Some(i))))
  {
    hide Initialized, IndexOf, LookupRule, SortedByName;
    var hRes, parsed := ParseNamespaceAndName(text);
    p := parsed;
    if hRes != S_OK {
      return None, p;
    }
    SplitFits(text.value, p);
    IndexOfIsSorted(db, nClass);
    NamesOfDatabase(db);
    var index := IndexOf(db, nClass);
    var i := Lookup(db.objects, index, text.value, parsed);
    if i.None? {
      return None, p;
    }
    RuleFindsInside(db.objects, index, text.value, p, i);
    r := Some(index[i.value]);
  }

  lemma SplitFits(s: Text, p: Parsed)
    requires Splits(s, p)
    ensures p.nameAt + p.nameLen <= |s| && p.namespaceAt + p.namespaceLen <= |s| && p.namespaceAt <= p.nameAt
  {
  }

  lemma NamesOfDatabase(db: Database)
    requires Initialized(db)
    ensures NamesOk(db.objects)
  {
  }

  lemma RuleFindsInside(objects: seq<DbObject>, index: seq<nat>, s: Text, p: Parsed, r: Option<nat>)
    requires ValidIndex(objects, index) && p.nameAt + p.nameLen <= |s|
    requires p.namespaceAt + p.namespaceLen <= |s| && p.namespaceAt <= p.nameAt
    requires LookupRule(objects, index, s, p, r) && r.Some?
    ensures r.value < |index|
  {
  }

  // --- GetFunction

  /** The classes of functions, in the order of their numbers. */
  const FUNCTION_CLASSES: seq<int> := [7, 9, 10, 11, 12, 13]

  /** The position in the class index of the object with a number, counting class after class. */
  function Pick(pos: seq<ClassPos>, classes: seq<int>, id: nat): Option<nat>
    requires |pos| == CLASSES && forall k :: 0 <= k < |classes| ==> -1 <= classes[k] <= LAST_CLASS
  {
    if classes == [] then None
    else
      var p := PosOf(pos, classes[0]);
      if id < p.nCount then Some(p.nStart + id) else Pick(pos, classes[1..], id - p.nCount)
  }

  function CountOf(pos: seq<ClassPos>, classes: seq<int>): nat
    requires |pos| == CLASSES && forall k :: 0 <= k < |classes| ==> -1 <= classes[k] <= LAST_CLASS
  {
    if classes == [] then 0 else PosOf(pos, classes[0]).nCount + CountOf(pos, classes[1..])
  }

  method GetFunctionsCount(db: Database) returns (n: nat)
    requires Initialized(db)
    ensures n == CountOf(db.classPos, FUNCTION_CLASSES)
  {
    hide SortedByName, SortedByClass, NamesOk, ClassesOk, IsPermutation;
    var p := db.classPos;
    n := PosOf(p, 7).nCount + PosOf(p, 9).nCount + PosOf(p, 10).nCount +
         PosOf(p, 11).nCount + PosOf(p, 12).nCount + PosOf(p, 13).nCount;
    FunctionClasses(p);
  }

  lemma FunctionClasses(p: seq<ClassPos>)
    requires |p| == CLASSES
    ensures CountOf(p, FUNCTION_CLASSES) ==
      PosOf(p, 7).nCount + PosOf(p, 9).nCount + PosOf(p, 10).nCount +
      PosOf(p, 11).nCount + PosOf(p, 12).nCount + PosOf(p, 13).nCount
  {
    hide CountOf, PosOf;
    CountOfNone(p);
    CountOfFirst(p, 13, []);
    CountOfFirst(p, 12, [13]);
    CountOfFirst(p, 11, [12, 13]);
    CountOfFirst(p, 10, [11, 12, 13]);
    CountOfFirst(p, 9, [10, 11, 12, 13]);
    CountOfFirst(p, 7, [9, 10, 11, 12, 13]);
    assert [7] + [9, 10, 11, 12, 13] == FUNCTION_CLASSES && [9] + [10, 11, 12, 13] == [9, 10, 11, 12, 13];
    assert [10] + [11, 12, 13] == [10, 11, 12, 13] && [11] + [12, 13] == [11, 12, 13] && [12] + [13] == [12, 13] &&
        [13] + [] == [13];
  }

  lemma CountOfNone(p: seq<ClassPos>)
    requires |p| == CLASSES
    ensures CountOf(p, []) == 0
  {
  }

  lemma CountOfFirst(p: seq<ClassPos>, c: int, classes: seq<int>)
    requires |p| == CLASSES && -1 <= c <= LAST_CLASS && forall k :: 0 <= k < |classes| ==>
        -1 <= classes[k] <= LAST_CLASS
    ensures CountOf(p, [c] + classes) == PosOf(p, c).nCount + CountOf(p, classes)
  {
    assert ([c] + classes)[1..] == classes;
  }

  method GetFunction(db: Database, nFuncId: nat) returns (r: Option<nat>)
    requires Initialized(db)
    ensures r == match Pick(db.classPos, FUNCTION_CLASSES, nFuncId)
                 case None => None
                 case Some(i) => if i < |db.classIndex| then Some(db.classIndex[i]) else None
  {
    hide SortedByName, SortedByClass, NamesOk, ClassesOk, IsPermutation;
    var id: nat, i := nFuncId, 0;
    assert FUNCTION_CLASSES[0..] == FUNCTION_CLASSES;
    while i < |FUNCTION_CLASSES|
      invariant 0 <= i <= |FUNCTION_CLASSES|
      invariant Pick(db.classPos, FUNCTION_CLASSES, nFuncId) == Pick(db.classPos, FUNCTION_CLASSES[i..], id)
    {
      var p := PosOf(db.classPos, FUNCTION_CLASSES[i]);
      assert FUNCTION_CLASSES[i..][1..] == FUNCTION_CLASSES[i + 1..];
      if id < p.nCount {
        return Some(db.classIndex[p.nStart + id]);
      }
      id := id - p.nCount;
      i := i + 1;
    }
    return None;
  }

  ghost predicate Distinct(classes: seq<int>) {
    && (forall k :: 0 <= k < |classes| ==> -1 <= classes[k] <= LAST_CLASS)
    && forall j, k :: 0 <= j < k < |classes| ==> classes[j] != classes[k]
  }

  /** Numbers below the count, and no others, pick an entry, and one of the given classes. */
  lemma {:induction false} PickIsOfClass(objects: seq<DbObject>, index: seq<nat>, pos: seq<ClassPos>,
      classes: seq<int>, id: nat)
    requires ValidIndex(objects, index) && Partition(objects, index, pos) && Distinct(classes)
    ensures var r := Pick(pos, classes, id);
      && (r.Some? <==> id < CountOf(pos, classes))
      && (r.Some? ==> r.value < |index| && objects[index[r.value]].nClass in classes)
  {
    if classes != [] {
      var p := PosOf(pos, classes[0]);
      if id < p.nCount {
        assert InRange(PosOf(pos, classes[0]), p.nStart + id);
      } else {
        PickIsOfClass(objects, index, pos, classes[1..], id - p.nCount);
      }
    }
  }

  /** Every entry of one of the classes has a number. */
  lemma {:induction false} PickIsOnto(objects: seq<DbObject>, index: seq<nat>, pos: seq<ClassPos>, classes: seq<int>,
      i: nat)
    returns (id: nat)
    requires ValidIndex(objects, index) && Partition(objects, index, pos) && Distinct(classes)
    requires i < |index| && objects[index[i]].nClass in classes
    ensures Pick(pos, classes, id) == Some(i)
  {
    var c := classes[0];
    if objects[index[i]].nClass == c {
      assert InRange(PosOf(pos, c), i);
      id := i - PosOf(pos, c).nStart;
    } else {
      var rest := PickIsOnto(objects, index, pos, classes[1..], i);
      id := rest + PosOf(pos, c).nCount;
    }
  }

  lemma {:induction false} PickIsInjective(objects: seq<DbObject>, index: seq<nat>, pos: seq<ClassPos>,
      classes: seq<int>, id: nat, other: nat)
    requires ValidIndex(objects, index) && Partition(objects, index, pos) && Distinct(classes)
    requires id < other && Pick(pos, classes, id).Some? && Pick(pos, classes, other).Some?
    ensures Pick(pos, classes, id) != Pick(pos, classes, other)
  {
    var p := PosOf(pos, classes[0]);
    if id < p.nCount <= other {
      PickIsOfClass(objects, index, pos, classes[1..], other - p.nCount);
      assert InRange(PosOf(pos, classes[0]), p.nStart + id);
    } else if p.nCount <= id {
      PickIsInjective(objects, index, pos, classes[1..], id - p.nCount, other - p.nCount);
    }
  }

  /** GetFunction numbers the objects of the six function classes from 0 to the count less 1, each
      once. */
  lemma FunctionNumbersAreABijection(db: Database, x: nat)
    requires Initialized(db) && x < |db.objects|
    ensures (exists id: nat :: FunctionIs(db, id, x)) <==> db.objects[x].nClass in FUNCTION_CLASSES
    ensures forall id: nat, other: nat :: FunctionIs(db, id, x) && FunctionIs(db, other, x) ==> id == other
    ensures forall id: nat :: FunctionIs(db, id, x) ==> id < CountOf(db.classPos, FUNCTION_CLASSES)
    ensures forall id: nat :: id < CountOf(db.classPos, FUNCTION_CLASSES) ==>
        Pick(db.classPos, FUNCTION_CLASSES, id).Some?
  {
    hide SortedByName, SortedByClass, NamesOk, ClassesOk, Pick, CountOf;
    var index, pos, classes := db.classIndex, db.classPos, FUNCTION_CLASSES;
    forall id: nat { PickIsOfClass(db.objects, index, pos, classes, id); }
    assert x in index;
    var i :| 0 <= i < |index| && index[i] == x;
    if db.objects[x].nClass in classes {
      var id := PickIsOnto(db.objects, index, pos, classes, i);
      assert FunctionIs(db, id, x);
    }
    forall id: nat, other: nat | FunctionIs(db, id, x) && FunctionIs(db, other, x) ensures id == other {
      if id < other { PickIsInjective(db.objects, index, pos, classes, id, other); }
      if other < id { PickIsInjective(db.objects, index, pos, classes, other, id); }
    }
  }

  /** What GetFunction returns for a number. */
  ghost predicate FunctionIs(db: Database, id: nat, x: nat)
    requires Initialized(db)
  {
    var r := Pick(db.classPos, FUNCTION_CLASSES, id);
    r.Some? && r.value < |db.classIndex| && db.classIndex[r.value] == x
  }

  /** A number picks a function, a constructor, a destructor, an operator, a method or a converter of a
      class. The numbers follow the classes in this order, and within a class the names and then
      the namespaces. */
  lemma FunctionNumbersAscend(db: Database, id: nat, other: nat, x: nat, y: nat)
    requires Initialized(db) && id < other && FunctionIs(db, id, x) && FunctionIs(db, other, y)
    ensures x < |db.objects| && y < |db.objects|
    ensures var a, b := db.objects[x].nClass, db.objects[y].nClass;
      && a in {7, 9, 10, 11, 12, 13} && b in {7, 9, 10, 11, 12, 13} && a <= b
      && (a == b ==> CompareObjects(db.objects[x], db.objects[y]) <= 0)
  {
    hide SortedByName, SortedByClass, NamesOk, ClassesOk, Pick, CompareObjects, CountOf;
    var index, pos, classes := db.classIndex, db.classPos, FUNCTION_CLASSES;
    PickIsOfClass(db.objects, index, pos, classes, id);
    PickIsOfClass(db.objects, index, pos, classes, other);
    PickAscends(db.objects, index, pos, classes, id, other);
    var i, j := Pick(pos, classes, id).value, Pick(pos, classes, other).value;
    if db.objects[x].nClass == db.objects[y].nClass { ClassesAscend(db.objects, index, i, j); }
  }

  /** Larger numbers pick entries of later classes, or later entries. */
  lemma {:induction false} PickAscends(objects: seq<DbObject>, index: seq<nat>, pos: seq<ClassPos>, classes: seq<int>,
      id: nat, other: nat)
    requires ValidIndex(objects, index) && Partition(objects, index, pos) && Distinct(classes)
    requires forall j, k :: 0 <= j < k < |classes| ==> classes[j] < classes[k]
    requires id < other && Pick(pos, classes, id).Some? && Pick(pos, classes, other).Some?
    ensures var i, j := Pick(pos, classes, id).value, Pick(pos, classes, other).value;
      && i < |index| && j < |index|
      && var a, b := objects[index[i]].nClass, objects[index[j]].nClass;
      a <= b && (a == b ==> i < j)
  {
    PickIsOfClass(objects, index, pos, classes, id);
    PickIsOfClass(objects, index, pos, classes, other);
    var p := PosOf(pos, classes[0]);
    if p.nCount <= id {
      PickAscends(objects, index, pos, classes[1..], id - p.nCount, other - p.nCount);
    } else {
      assert InRange(PosOf(pos, classes[0]), p.nStart + id);
      if p.nCount <= other {
        PickIsOfClass(objects, index, pos, classes[1..], other - p.nCount);
      } else {
        assert InRange(PosOf(pos, classes[0]), p.nStart + other);
      }
    }
  }
}
