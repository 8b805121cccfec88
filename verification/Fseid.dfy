/** The order and the equality of PFCP's F-SEIDs, which key the sets of sessions. */
module Fseids {
  type Word = n: int | 0 <= n < 0x1_0000_0000
  type Long = n: int | 0 <= n < 0x1_0000_0000_0000_0000

  /** An IPv6 address is four words of 32 bits. */
  datatype Fseid = Fseid(seid: Long, v4: bool, ipv4: Word, v6: bool, ip0: Word, ip1: Word, ip2: Word, ip3: Word)

  function Join(hi: Word, lo: Word): Long { hi * 0x1_0000_0000 + lo }

  /** Operator ==. */
  predicate Equal(a: Fseid, b: Fseid) {
    && b.seid == a.seid && b.v4 == a.v4 && b.ipv4 == a.ipv4 && b.v6 == a.v6
    && b.ip0 == a.ip0 && b.ip1 == a.ip1 && b.ip2 == a.ip2 && b.ip3 == a.ip3
  }

  /** Operator <, where `a` is `this`. */
  predicate Less(a: Fseid, b: Fseid) {
    if b.seid < a.seid then true
    else if b.seid > a.seid then false
    else if b.v4 == a.v4 && b.ipv4 > a.ipv4 then true
    else if b.v4 == a.v4 && b.ipv4 < a.ipv4 then false
    else if b.v4 != a.v4 && a.v4 then true
    else LessV6(a, b)
  }

  /** The part of operator < that looks at the IPv6 address. */
  predicate LessV6(a: Fseid, b: Fseid) {
    if b.v6 == a.v6 then
      if Join(b.ip0, b.ip1) < Join(a.ip0, a.ip1) then true
      else if Join(b.ip0, b.ip1) > Join(a.ip0, a.ip1) then false
      else if Join(b.ip2, b.ip3) < Join(a.ip2, a.ip3) then true
      else false
    else a.v6
  }

  // ----- the order that was meant -----

  /** Compares the fields one after the other; `x` decides when it is not 0. */
  function Then(x: int, y: int): int { if x != 0 then x else y }

  function FlagFirst(a: bool, b: bool): int { if a == b then 0 else if a then -1 else 1 }

  function CompareV6(a: Fseid, b: Fseid): int {
    Then(FlagFirst(a.v6, b.v6),
         Then(b.ip0 - a.ip0, Then(b.ip1 - a.ip1, Then(b.ip2 - a.ip2, b.ip3 - a.ip3))))
  }

  /** The lexicographic comparison: larger seid first, IPv4 first, smaller IPv4 address, IPv6
      first, larger IPv6 address. */
  function Compare(a: Fseid, b: Fseid): int {
    Then(b.seid - a.seid, Then(FlagFirst(a.v4, b.v4), Then(a.ipv4 - b.ipv4, CompareV6(a, b))))
  }

  /** Compare(a, b) for IPv6 addresses is what the joined words say. */
  lemma LessV6IsCompare(a: Fseid, b: Fseid)
    ensures LessV6(a, b) <==> CompareV6(a, b) < 0
    ensures CompareV6(a, b) == 0 <==> a.v6 == b.v6 && a.ip0 == b.ip0 && a.ip1 == b.ip1 && a.ip2 == b.ip2 && a.ip3 == b.ip3
  {}

  /** The two keys are compared the wrong way round too: only `b` has an IPv4 address, and `a`
      comes first by its IPv6 part. The original falls through to that part. */
  predicate Misordered(a: Fseid, b: Fseid) {
    a.seid == b.seid && !a.v4 && b.v4 && LessV6(a, b)
  }

  /** Exactly what operator < is: the lexicographic order, and the misordered pairs in addition. */
  lemma LessIs(a: Fseid, b: Fseid)
    ensures Less(a, b) <==> Compare(a, b) < 0 || Misordered(a, b)
    ensures Compare(a, b) == 0 <==> Equal(a, b)
    ensures Misordered(a, b) ==> Compare(b, a) < 0
  {
    LessV6IsCompare(a, b);
  }

  lemma CompareV6IsOrder(a: Fseid, b: Fseid, c: Fseid)
    ensures (CompareV6(a, b) < 0 <==> CompareV6(b, a) > 0) && (CompareV6(a, b) == 0 <==> CompareV6(b, a) == 0)
    ensures CompareV6(a, b) <= 0 && CompareV6(b, c) <= 0 ==>
              CompareV6(a, c) <= 0 && (CompareV6(a, c) == 0 ==> CompareV6(a, b) == 0 && CompareV6(b, c) == 0)
  {}

  lemma CompareIsOrder(a: Fseid, b: Fseid, c: Fseid)
    ensures Compare(a, b) < 0 <==> Compare(b, a) > 0
    ensures Compare(a, b) < 0 && Compare(b, c) < 0 ==> Compare(a, c) < 0
  {
    CompareV6IsOrder(a, b, c);
  }

  // ----- what a set needs -----

  /** What std::set needs of its order, with operator == as the meaning of "the same key". */
  ghost predicate StrictOrderOn(keys: set<Fseid>) {
    && (forall a, b :: a in keys && b in keys ==> !(Less(a, b) && Less(b, a)))
    && (forall a, b, c :: a in keys && b in keys && c in keys && Less(a, b) && Less(b, c) ==> Less(a, c))
    && (forall a, b :: a in keys && b in keys ==> (!Less(a, b) && !Less(b, a) <==> Equal(a, b)))
  }

  /** Operator < orders a set of keys if and only if no two of them are misordered. */
  lemma OrdersExactlyWithoutMisordered(keys: set<Fseid>)
    ensures StrictOrderOn(keys) <==> forall a, b :: a in keys && b in keys ==> !Misordered(a, b)
  {
    if forall a, b :: a in keys && b in keys ==> !Misordered(a, b) {
      forall a, b | a in keys && b in keys
        ensures !(Less(a, b) && Less(b, a))
        ensures !Less(a, b) && !Less(b, a) <==> Equal(a, b)
      {
        LessIs(a, b);
        LessIs(b, a);
        CompareIsOrder(a, b, a);
      }
      forall a, b, c | a in keys && b in keys && c in keys && Less(a, b) && Less(b, c)
        ensures Less(a, c)
      {
        LessIs(a, b);
        LessIs(b, c);
        LessIs(a, c);
        CompareIsOrder(a, b, c);
      }
    } else {
      var a, b :| a in keys && b in keys && Misordered(a, b);
      LessIs(a, b);
      LessIs(b, a);
    }
  }

  /** Keys that all have an IPv4 address, or all have none, are ordered. */
  lemma OrdersSameFlag(keys: set<Fseid>, v4: bool)
    requires forall a :: a in keys ==> a.v4 == v4
    ensures StrictOrderOn(keys)
  {
    OrdersExactlyWithoutMisordered(keys);
  }

  /** A dual-stack key and an IPv6-only key of one session, each less than the other. */
  lemma EachLessThanTheOther(seid: Long, ipv4: Word)
    ensures
      var only6 := Fseid(seid, false, 0, true, 1, 0, 0, 0);
      var dual := Fseid(seid, true, ipv4, true, 0, 0, 0, 1);
      Less(only6, dual) && Less(dual, only6)
  {}
}
