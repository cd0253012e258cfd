/** Message parameters (moqt-core/src/wire/parameter.rs), section 9.3 of
    draft-ietf-moq-transport-17. */
module Parameters {
  import opened Words
  import opened Codec
  import opened Varint
  import opened Blocks
  import opened Wire

  const DELIVERY_TIMEOUT: u64 := 0x02
  const AUTHORIZATION_TOKEN: u64 := 0x03
  const RENDEZVOUS_TIMEOUT: u64 := 0x04
  const EXPIRES: u64 := 0x08
  const LARGEST_OBJECT: u64 := 0x09
  const FORWARD: u64 := 0x10
  const SUBSCRIBER_PRIORITY: u64 := 0x20
  const SUBSCRIPTION_FILTER: u64 := 0x21
  const GROUP_ORDER: u64 := 0x22
  const NEW_GROUP_REQUEST: u64 := 0x32

  // ----- what the draft lets a peer send -----

  /** One of the ten parameters of the draft: the three that the decoder keeps, and the wire
      shapes of the seven that it reads and drops. */
  datatype SpecParameter =
    | Kept(parameter: MessageParameter)
    | Number(numberType: u64, number: u64)
    | Octet(octetType: u64, octet: byte)
    | Token(token: blob)

  predicate IsNumberType(t: u64) { t in {DELIVERY_TIMEOUT, RENDEZVOUS_TIMEOUT, EXPIRES, NEW_GROUP_REQUEST} }

  predicate IsOctetType(t: u64) { t in {SUBSCRIBER_PRIORITY, GROUP_ORDER} }

  predicate InDraft(p: SpecParameter) {
    match p
    case Kept(_) => true
    case Number(t, _) => IsNumberType(t)
    case Octet(t, _) => IsOctetType(t)
    case Token(_) => true
  }

  /** param_type_id */
  function ParamTypeId(p: MessageParameter): (t: u64)
    ensures t in {LARGEST_OBJECT, FORWARD, SUBSCRIPTION_FILTER}
  {
    match p
    case LargestObject(_, _) => LARGEST_OBJECT
    case Forward(_) => FORWARD
    case FilterParameter(_) => SUBSCRIPTION_FILTER
  }

  function TypeOf(p: SpecParameter): u64 {
    match p
    case Kept(q) => ParamTypeId(q)
    case Number(t, _) => t
    case Octet(t, _) => t
    case Token(_) => AUTHORIZATION_TOKEN
  }

  function FilterBytes(f: SubscriptionFilter): (s: bytes)
    ensures |s| < 100
  {
    match f
    case NextGroupStart => Encode(1)
    case LargestObjectFilter => Encode(2)
    case AbsoluteStart(g, o) => Encode(3) + (Encode(g) + Encode(o))
    case AbsoluteRange(g, o, d) => Encode(4) + (Encode(g) + (Encode(o) + Encode(d)))
  }

  function KeptBytes(p: MessageParameter): bytes {
    match p
    case FilterParameter(f) => EncodeBlock(FilterBytes(f))
    case LargestObject(g, o) => Encode(g) + Encode(o)
    case Forward(b) => [b]
  }

  function ValueBytes(p: SpecParameter): bytes {
    match p
    case Kept(q) => KeptBytes(q)
    case Number(_, n) => Encode(n)
    case Octet(_, b) => [b]
    case Token(b) => EncodeBlock(b)
  }

  function ItemBytes(p: SpecParameter, prev: u64): bytes
    requires prev <= TypeOf(p)
  {
    Encode(TypeOf(p) - prev) + ValueBytes(p)
  }

  predicate Ascending(ps: seq<SpecParameter>, prev: u64) {
    ps == [] || (InDraft(ps[0]) && prev <= TypeOf(ps[0]) && Ascending(ps[1..], TypeOf(ps[0])))
  }

  function BodyBytes(ps: seq<SpecParameter>, prev: u64): bytes
    requires Ascending(ps, prev)
  {
    if ps == [] then [] else ItemBytes(ps[0], prev) + BodyBytes(ps[1..], TypeOf(ps[0]))
  }

  /** A parameter list as section 9.3 puts it on the wire. */
  function SpecEncoding(ps: seq<SpecParameter>): bytes
    requires |ps| < U64 && Ascending(ps, 0)
  {
    Encode(|ps|) + BodyBytes(ps, 0)
  }

  function KeptOf(ps: seq<SpecParameter>): (qs: seq<MessageParameter>)
    ensures |qs| <= |ps|
  {
    if ps == [] then []
    else if ps[0].Kept? then [ps[0].parameter] + KeptOf(ps[1..])
    else KeptOf(ps[1..])
  }

  predicate AllKept(ps: seq<SpecParameter>) { forall p :: p in ps ==> p.Kept? }

  /** The type of the last parameter, or `prev` if there is none. */
  function LastType(ps: seq<SpecParameter>, prev: u64): u64 {
    if ps == [] then prev else TypeOf(ps[|ps| - 1])
  }

  // ----- what the decoder does with it -----

  function ParseFilter(s: bytes): Parse<SubscriptionFilter> {
    var (filterType, s1) :- ParseVarint(s);
    match filterType
    case 1 => Accept(NextGroupStart, s1)
    case 2 => Accept(LargestObjectFilter, s1)
    case 3 =>
      var (g, s2) :- ParseVarint(s1);
      var (o, s3) :- ParseVarint(s2);
      Accept(AbsoluteStart(g, o), s3)
    case 4 =>
      var (g, s2) :- ParseVarint(s1);
      var (o, s3) :- ParseVarint(s2);
      var (d, s4) :- ParseVarint(s3);
      Accept(AbsoluteRange(g, o, d), s4)
    case _ => Reject
  }

  function ParseLocation(s: bytes): Parse<MessageParameter> {
    var (g, s1) :- ParseVarint(s);
    var (o, s2) :- ParseVarint(s1);
    Accept(LargestObject(g, o), s2)
  }

  function ParseFilterParameter(s: bytes): Parse<SubscriptionFilter> {
    var (payload, s1) :- ParseBlock(s);
    var (f, _) :- ParseFilter(payload);
    Accept(f, s1)
  }

  /** The value of a parameter of type `t`: kept, or read and dropped (`None`). */
  function ParseTyped(t: u64, s: bytes): Parse<Option<MessageParameter>> {
    if t == SUBSCRIPTION_FILTER then
      var (f, s1) :- ParseFilterParameter(s);
      Accept(Some(FilterParameter(f)), s1)
    else if t == LARGEST_OBJECT then
      var (p, s1) :- ParseLocation(s);
      Accept(Some(p), s1)
    else if t == FORWARD then
      if s == [] then Reject else Accept(Some(Forward(s[0])), s[1..])
    else if IsNumberType(t) then
      var (_, s1) :- ParseVarint(s);
      Accept(None, s1)
    else if t == AUTHORIZATION_TOKEN then
      var (_, s1) :- ParseBlock(s);
      Accept(None, s1)
    else if IsOctetType(t) then
      if s == [] then Reject else Accept(None, s[1..])
    else
      Reject
  }

  datatype Item = Keep(typeId: u64, parameter: MessageParameter) | Skip

  /** One round of the loop: the delta is added to the type of the last kept parameter. */
  function ParseItem(s: bytes, base: u64): Parse<Item> {
    var (delta, s1) :- ParseVarint(s);
    if base + delta >= U64 then Reject
    else
      var (v, s2) :- ParseTyped(base + delta, s1);
      Accept(if v.Some? then Keep(base + delta, v.value) else Skip, s2)
  }

  function ParseBody(n: nat, base: u64, s: bytes): Parse<seq<MessageParameter>> {
    if n == 0 then Accept([], s)
    else
      match ParseItem(s, base)
      case Reject => Reject
      case Accept(Skip, rest) => ParseBody(n - 1, base, rest)
      case Accept(Keep(t, p), rest) => PrependTo([p], ParseBody(n - 1, t, rest))
  }

  function PrependTo(ps: seq<MessageParameter>, o: Parse<seq<MessageParameter>>): Parse<seq<MessageParameter>> {
    match o case Reject => Reject case Accept(qs, rest) => Accept(ps + qs, rest)
  }

  function ParseParameters(s: bytes): Parse<Parameters> {
    var (count, s1) :- ParseVarint(s);
    AtMostCount(count, 0, s1);
    var (ps, rest) :- ParseBody(count, 0, s1);
    Accept(ps, rest)
  }

  // ----- values -----

  lemma ParseTwo(a: u64, b: u64, rest: bytes)
    ensures ParseVarint(Encode(a) + (Encode(b) + rest)) == Accept(a, Encode(b) + rest)
    ensures ParseVarint(Encode(b) + rest) == Accept(b, rest)
  {
    RoundTrip(a, Encode(b) + rest);
    RoundTrip(b, rest);
  }

  lemma ParseFilterBytes(f: SubscriptionFilter)
    ensures ParseFilter(FilterBytes(f)) == Accept(f, [])
  {
    hide Encode, ParseVarint;
    match f
    case NextGroupStart =>
      RoundTrip(1, []);
      assert Encode(1) + [] == Encode(1);
    case LargestObjectFilter =>
      RoundTrip(2, []);
      assert Encode(2) + [] == Encode(2);
    case AbsoluteStart(g, o) =>
      assert Encode(o) + [] == Encode(o);
      RoundTrip(3, Encode(g) + Encode(o));
      ParseTwo(g, o, []);
    case AbsoluteRange(g, o, d) =>
      assert Encode(d) + [] == Encode(d);
      RoundTrip(4, Encode(g) + (Encode(o) + Encode(d)));
      RoundTrip(g, Encode(o) + Encode(d));
      ParseTwo(o, d, []);
  }

  /** Bytes of the filter value behind the filter are ignored. */
  lemma FilterTail(f: SubscriptionFilter, tail: bytes, rest: bytes)
    requires |FilterBytes(f) + tail| < U64
    ensures ParseFilterParameter(EncodeBlock(FilterBytes(f) + tail) + rest) == Accept(f, rest)
  {
    hide ParseVarint, Encode, EncodeBlock, ParseBlock;
    ParseEncodedBlock(FilterBytes(f) + tail, rest);
    ParseFilterBytes(f);
    FilterValueIsLocal(FilterBytes(f), tail);
  }

  lemma FilterValueIsLocal(s: bytes, more: bytes)
    requires ParseFilter(s).Accept?
    ensures ParseFilter(s + more) == Accept(ParseFilter(s).value, ParseFilter(s).rest + more)
  {
    hide ParseVarint;
    ParseIsLocal(s, more);
    var Accept(t, s1) := ParseVarint(s);
    if t == 3 || t == 4 {
      ParseIsLocal(s1, more);
      var s2 := ParseVarint(s1).rest;
      ParseIsLocal(s2, more);
      if t == 4 {
        ParseIsLocal(ParseVarint(s2).rest, more);
      }
    }
  }

  lemma ParseKeptBytes(p: MessageParameter, rest: bytes)
    ensures ParseTyped(ParamTypeId(p), KeptBytes(p) + rest) == Accept(Some(p), rest)
  {
    match p
    case FilterParameter(f) =>
      ParseEncodedBlock(FilterBytes(f), rest);
      ParseFilterBytes(f);
    case LargestObject(g, o) =>
      Concat3(Encode(g), Encode(o), rest);
      ParseTwo(g, o, rest);
    case Forward(b) =>
  }

  lemma ParseValueBytes(p: SpecParameter, rest: bytes)
    requires InDraft(p)
    ensures ParseTyped(TypeOf(p), ValueBytes(p) + rest) ==
            Accept(if p.Kept? then Some(p.parameter) else None, rest)
  {
    match p
    case Kept(q) => ParseKeptBytes(q, rest);
    case Number(_, n) => RoundTrip(n, rest);
    case Octet(_, b) =>
    case Token(b) => ParseEncodedBlock(b, rest);
  }

  // ----- lists -----

  function AsItem(t: u64, v: Parse<Option<MessageParameter>>): Parse<Item> {
    match v
    case Reject => Reject
    case Accept(None, rest) => Accept(Skip, rest)
    case Accept(Some(p), rest) => Accept(Keep(t, p), rest)
  }

  /** The exact law of type resolution. A parameter whose delta was taken from `prev` is read as the
      type `base + (TypeOf(p) - prev)`, where `base` is the last type that was kept: its own type
      exactly when the parameter before it was kept (or was none). */
  lemma ResolvesAgainstBase(p: SpecParameter, prev: u64, base: u64, rest: bytes)
    requires prev <= TypeOf(p)
    ensures ParseItem(ItemBytes(p, prev) + rest, base) ==
            var t := base + (TypeOf(p) - prev);
            if t >= U64 then Reject else AsItem(t, ParseTyped(t, ValueBytes(p) + rest))
  {
    hide ParseItem, ParseVarint, ParseTyped, Encode, ValueBytes;
    var d := TypeOf(p) - prev;
    Concat3(Encode(d), ValueBytes(p), rest);
    RoundTrip(d, ValueBytes(p) + rest);
    ItemFromParts(ItemBytes(p, prev) + rest, base, d, ValueBytes(p) + rest);
  }

  lemma ItemFromParts(s: bytes, base: u64, delta: u64, s1: bytes)
    requires ParseVarint(s) == Accept(delta, s1)
    ensures ParseItem(s, base) ==
            if base + delta >= U64 then Reject else AsItem(base + delta, ParseTyped(base + delta, s1))
  {
    hide ParseVarint, ParseTyped;
  }

  lemma ItemInStep(p: SpecParameter, prev: u64, rest: bytes)
    requires InDraft(p) && prev <= TypeOf(p)
    ensures ParseItem(ItemBytes(p, prev) + rest, prev) ==
            Accept(if p.Kept? then Keep(TypeOf(p), p.parameter) else Skip, rest)
  {
    ResolvesAgainstBase(p, prev, prev, rest);
    ParseValueBytes(p, rest);
  }

  lemma BodyStep(n: nat, base: u64, s: bytes, i: Item, rest: bytes)
    requires ParseItem(s, base) == Accept(i, rest)
    ensures ParseBody(n + 1, base, s) ==
            match i
            case Skip => ParseBody(n, base, rest)
            case Keep(t, p) => PrependTo([p], ParseBody(n, t, rest))
  {
  }

  lemma PrependToTwice(ps: seq<MessageParameter>, qs: seq<MessageParameter>, o: Parse<seq<MessageParameter>>)
    ensures PrependTo([], o) == o
    ensures PrependTo(ps, PrependTo(qs, o)) == PrependTo(ps + qs, o)
  {
    if o.Accept? {
      assert [] + o.value == o.value;
      Concat3(ps, qs, o.value);
    }
  }

  /** One parameter that the decoder meets in step with the encoder. */
  lemma ListStep(p: SpecParameter, qs: seq<SpecParameter>, prev: u64, rest: bytes)
    requires Ascending([p] + qs, prev)
    ensures InDraft(p) && prev <= TypeOf(p) && Ascending(qs, TypeOf(p))
    ensures ParseBody(|qs| + 1, prev, BodyBytes([p] + qs, prev) + rest) ==
            if p.Kept?
            then PrependTo([p.parameter], ParseBody(|qs|, TypeOf(p), BodyBytes(qs, TypeOf(p)) + rest))
            else ParseBody(|qs|, prev, BodyBytes(qs, TypeOf(p)) + rest)
  {
    assert ([p] + qs)[1..] == qs;
    var more := BodyBytes(qs, TypeOf(p)) + rest;
    Concat3(ItemBytes(p, prev), BodyBytes(qs, TypeOf(p)), rest);
    ItemInStep(p, prev, more);
    BodyStep(|qs|, prev, BodyBytes([p] + qs, prev) + rest,
             if p.Kept? then Keep(TypeOf(p), p.parameter) else Skip, more);
  }

  lemma {:induction false} AscendingTail(ps: seq<SpecParameter>, tail: seq<SpecParameter>, prev: u64)
    requires Ascending(ps + tail, prev)
    ensures Ascending(tail, LastType(ps, prev))
  {
    if ps == [] {
      assert ps + tail == tail;
    } else {
      assert (ps + tail)[0] == ps[0] && (ps + tail)[1..] == ps[1..] + tail;
      AscendingTail(ps[1..], tail, TypeOf(ps[0]));
    }
  }

  lemma HeadOfConcat(ps: seq<SpecParameter>, tail: seq<SpecParameter>, prev: u64)
    requires ps != [] && Ascending(ps + tail, prev)
    ensures ps + tail == [ps[0]] + (ps[1..] + tail) && |ps + tail| == |ps[1..] + tail| + 1
    ensures Ascending(ps[1..] + tail, TypeOf(ps[0]))
    ensures LastType(ps[1..], TypeOf(ps[0])) == LastType(ps, prev)
  {
    assert (ps + tail)[1..] == ps[1..] + tail;
  }

  /** A run of kept parameters is read back, and leaves the decoder where the encoder is. */
  lemma {:induction false} KeptRun(ps: seq<SpecParameter>, tail: seq<SpecParameter>, prev: u64, rest: bytes,
                                   o: Parse<seq<MessageParameter>>)
    requires AllKept(ps) && Ascending(ps + tail, prev) && Ascending(tail, LastType(ps, prev))
    requires ParseBody(|tail|, LastType(ps, prev), BodyBytes(tail, LastType(ps, prev)) + rest) == o
    ensures ParseBody(|ps + tail|, prev, BodyBytes(ps + tail, prev) + rest) == PrependTo(KeptOf(ps), o)
  {
    hide ItemBytes, ParseItem;
    if ps == [] {
      assert ps + tail == tail;
      PrependToTwice([], [], o);
    } else {
      HeadOfConcat(ps, tail, prev);
      KeptRun(ps[1..], tail, TypeOf(ps[0]), rest, o);
      ListStep(ps[0], ps[1..] + tail, prev, rest);
      PrependToTwice([ps[0].parameter], KeptOf(ps[1..]), o);
    }
  }

  lemma {:induction false} AtMostCount(n: nat, base: u64, s: bytes)
    ensures ParseBody(n, base, s).Accept? ==> |ParseBody(n, base, s).value| <= n
  {
    hide ParseItem;
    if n > 0 && ParseBody(n, base, s).Accept? {
      var i, rest := FirstItem(n - 1, base, s);
      AtMostCount(n - 1, NextBase(i, base), rest);
    }
  }

  function NextBase(i: Item, base: u64): u64 {
    match i case Skip => base case Keep(t, _) => t
  }

  lemma KeptOfAll(ps: seq<SpecParameter>)
    requires AllKept(ps)
    ensures |KeptOf(ps)| == |ps|
  {
  }

  lemma {:induction false} KeptOfConcat(ps: seq<SpecParameter>, qs: seq<SpecParameter>)
    ensures KeptOf(ps + qs) == KeptOf(ps) + KeptOf(qs)
  {
    if ps == [] {
      assert ps + qs == qs;
    } else {
      assert (ps + qs)[0] == ps[0] && (ps + qs)[1..] == ps[1..] + qs;
      KeptOfConcat(ps[1..], qs);
    }
  }

  /** A kept parameter that directly follows a skipped one is resolved to a type the draft does not
      define, unless the skipped one is a leading EXPIRES and the kept one is FORWARD. */
  lemma AfterSkip(base: u64, skipped: SpecParameter, next: MessageParameter, rest: bytes)
    requires base in {0, LARGEST_OBJECT, FORWARD, SUBSCRIPTION_FILTER}
    requires InDraft(skipped) && !skipped.Kept?
    requires base <= TypeOf(skipped) <= ParamTypeId(next)
    ensures var r := ParseItem(ItemBytes(Kept(next), TypeOf(skipped)) + rest, base);
            r.Accept? ==> base == 0 && TypeOf(skipped) == EXPIRES && next.Forward? && r.value == Skip
  {
    hide ParseItem, ItemBytes, ValueBytes, ParseVarint, ParseBlock, ParseLocation, ParseFilterParameter;
    ResolvesAgainstBase(Kept(next), TypeOf(skipped), base, rest);
  }

  // ----- what survives decoding -----

  lemma CountThenBody(ps: seq<SpecParameter>, rest: bytes)
    requires |ps| < U64 && Ascending(ps, 0)
    ensures ParseParameters(SpecEncoding(ps) + rest) == ParseBody(|ps|, 0, BodyBytes(ps, 0) + rest)
  {
    Concat3(Encode(|ps|), BodyBytes(ps, 0), rest);
    RoundTrip(|ps|, BodyBytes(ps, 0) + rest);
  }

  /** A list without skipped types is read back whole, filters of all four kinds included. */
  lemma KeptRoundTrip(ps: seq<SpecParameter>, rest: bytes)
    requires |ps| < U64 && Ascending(ps, 0) && AllKept(ps)
    ensures ParseParameters(SpecEncoding(ps) + rest) == Accept(KeptOf(ps), rest)
  {
    hide ItemBytes, ParseItem, ParseParameters, SpecEncoding;
    CountThenBody(ps, rest);
    assert [] + rest == rest;
    EmptyTail(ps, KeptOf(ps));
    KeptRun(ps, [], 0, rest, Accept([], rest));
  }

  lemma EmptyTail(ps: seq<SpecParameter>, qs: seq<MessageParameter>)
    ensures ps + [] == ps && qs + [] == qs
  {
  }

  // ----- runs of skipped parameters -----

  /** A type whose values the decoder drops, and as which the value of the skipped parameter `p` is read
      over to its last byte. */
  predicate ReadOver(p: SpecParameter, t: u64) {
    match p
    case Kept(_) => false
    case Number(_, n) => IsNumberType(t) || (n < 0x80 && IsOctetType(t)) || (n == 0 && t == AUTHORIZATION_TOKEN)
    case Octet(_, b) => IsOctetType(t) || (b < 0x80 && IsNumberType(t)) || (b == 0 && t == AUTHORIZATION_TOKEN)
    case Token(b) => t == AUTHORIZATION_TOKEN || (b == [] && (IsNumberType(t) || IsOctetType(t)))
  }

  lemma ReadOverIff(p: SpecParameter, t: u64, rest: bytes)
    requires InDraft(p) && !p.Kept?
    ensures ParseTyped(t, ValueBytes(p) + rest) == Accept(None, rest) <==> ReadOver(p, t)
  {
    hide Encode, ParseVarint, ParseLocation, ParseFilterParameter, TakeBytes;
    var s := ValueBytes(p) + rest;
    match p
    case Number(_, n) =>
      RoundTrip(n, rest);
      OneByteIff(n, rest);
      TakeIsAll(rest, n);
    case Octet(_, b) =>
      assert s[1..] == rest;
      LeadingByte(b, rest);
      TakeIsAll(rest, b);
      BlockIsAfterLength(s);
    case Token(b) =>
      Concat3(Encode(|b|), b, rest);
      RoundTrip(|b|, b + rest);
      ParseEncodedBlock(b, rest);
      OneByteIff(|b|, b + rest);
      if b == [] {
        assert b + rest == rest;
      } else {
        assert |b + rest| > |rest|;
      }
  }

  lemma TakeIsAll(s: bytes, n: nat)
    ensures TakeBytes(s, n).Accept? && TakeBytes(s, n).rest == s <==> n == 0
  {
    if n == 0 {
      assert s[0..] == s;
    }
  }

  lemma BlockIsAfterLength(s: bytes)
    ensures ParseBlock(s).Accept? ==> ParseVarint(s).Accept? && |ParseBlock(s).rest| <= |ParseVarint(s).rest|
  {
    hide ParseVarint;
  }

  lemma OneByteIff(n: u64, rest: bytes)
    ensures (Encode(n) + rest)[1..] == rest <==> n < 0x80
    ensures |Encode(n)| >= 1
  {
    assert |(Encode(n) + rest)[1..]| == |Encode(n)| - 1 + |rest|;
    if n < 0x80 {
      OneByte(n);
      assert ([n] + rest)[1..] == rest;
    }
  }

  lemma LeadingByte(b: byte, rest: bytes)
    ensures if b < 0x80 then ParseVarint([b] + rest) == Accept(b, rest)
            else ParseVarint([b] + rest).Accept? ==> |ParseVarint([b] + rest).rest| < |rest|
  {
    if b < 0x80 {
      OneByteParses(b, rest);
    } else if ParseVarint([b] + rest).Accept? {
      AcceptedIsEncoding([b] + rest);
    }
  }

  /** What each parameter of a run of skipped ones is taken for: the decoder stays at the type `base`
      that it kept last. */
  function TakenFor(ss: seq<SpecParameter>, prev: u64, base: u64): (ts: seq<u64>)
    requires base <= prev && Ascending(ss, prev)
    ensures |ts| == |ss|
  {
    if ss == [] then [] else [base + (TypeOf(ss[0]) - prev)] + TakenFor(ss[1..], TypeOf(ss[0]), base)
  }

  predicate AllSkipped(ss: seq<SpecParameter>) { forall p :: p in ss ==> !p.Kept? }

  predicate AllReadOver(ss: seq<SpecParameter>, prev: u64, base: u64)
    requires base <= prev && Ascending(ss, prev)
  {
    forall i :: 0 <= i < |ss| ==> ReadOver(ss[i], TakenFor(ss, prev, base)[i])
  }

  /** The type that a skipped parameter is taken for is its own, less the type of the skipped one before
      it, plus the last type that was kept. */
  lemma {:induction false} TakenForIs(ss: seq<SpecParameter>, prev: u64, base: u64, i: nat)
    requires base <= prev && Ascending(ss, prev) && i < |ss|
    ensures var before := LastType(ss[..i], prev);
            before <= TypeOf(ss[i]) && TakenFor(ss, prev, base)[i] == base + (TypeOf(ss[i]) - before)
  {
    if i > 0 {
      TakenForIs(ss[1..], TypeOf(ss[0]), base, i - 1);
      assert ss[1..][..i - 1] == ss[..i][1..];
    }
  }

  lemma SkipStep(p: SpecParameter, qs: seq<SpecParameter>, prev: u64, base: u64, rest: bytes)
    requires base <= prev && Ascending([p] + qs, prev) && !p.Kept? && ReadOver(p, base + (TypeOf(p) - prev))
    ensures Ascending(qs, TypeOf(p))
    ensures ParseBody(|qs| + 1, base, BodyBytes([p] + qs, prev) + rest) ==
            ParseBody(|qs|, base, BodyBytes(qs, TypeOf(p)) + rest)
  {
    hide ItemBytes, ParseItem, ParseTyped, ValueBytes, ReadOver;
    assert ([p] + qs)[1..] == qs;
    var more := BodyBytes(qs, TypeOf(p)) + rest;
    Concat3(ItemBytes(p, prev), BodyBytes(qs, TypeOf(p)), rest);
    ResolvesAgainstBase(p, prev, base, more);
    ReadOverIff(p, base + (TypeOf(p) - prev), more);
    BodyStep(|qs|, base, BodyBytes([p] + qs, prev) + rest, Skip, more);
  }

  lemma TailReadOver(ss: seq<SpecParameter>, prev: u64, base: u64)
    requires ss != [] && base <= prev && Ascending(ss, prev) && AllReadOver(ss, prev, base)
    ensures ReadOver(ss[0], base + (TypeOf(ss[0]) - prev)) && AllReadOver(ss[1..], TypeOf(ss[0]), base)
  {
    hide ReadOver;
    var ts := TakenFor(ss, prev, base);
    assert ts[1..] == TakenFor(ss[1..], TypeOf(ss[0]), base);
    forall i | 0 <= i < |ss[1..]| ensures ReadOver(ss[1..][i], ts[1..][i]) {
      assert ReadOver(ss[i + 1], ts[i + 1]);
    }
    assert ReadOver(ss[0], ts[0]);
  }

  /** A run of skipped parameters, each taken for a type as which its value is read over, leaves the
      decoder at the next parameter, with the type that it kept last. */
  lemma {:induction false} SkippedRun(ss: seq<SpecParameter>, tail: seq<SpecParameter>, prev: u64, base: u64,
                                      rest: bytes)
    requires base <= prev && Ascending(ss + tail, prev) && AllSkipped(ss)
    requires Ascending(ss, prev) && AllReadOver(ss, prev, base)
    ensures Ascending(tail, LastType(ss, prev))
    ensures ParseBody(|ss + tail|, base, BodyBytes(ss + tail, prev) + rest) ==
            ParseBody(|tail|, base, BodyBytes(tail, LastType(ss, prev)) + rest)
  {
    hide ItemBytes, ParseItem, ReadOver, ParseBody;
    if ss == [] {
      assert ss + tail == tail;
    } else {
      HeadOfConcat(ss, tail, prev);
      TailReadOver(ss, prev, base);
      SkippedRun(ss[1..], tail, TypeOf(ss[0]), base, rest);
      SkipStep(ss[0], ss[1..] + tail, prev, base, rest);
    }
  }

  /** One of the ten types of the draft. */
  predicate IsDefined(t: u64) {
    IsNumberType(t) || IsOctetType(t) || t in {AUTHORIZATION_TOKEN, LARGEST_OBJECT, FORWARD, SUBSCRIPTION_FILTER}
  }

  /** A list is rejected, whatever else it holds, if after a run that is read over comes a parameter
      that is taken for a type that the draft does not define. */
  lemma UndefinedAfterSkip(before: seq<SpecParameter>, ss: seq<SpecParameter>, p: SpecParameter,
                           more: seq<SpecParameter>, rest: bytes)
    requires AllKept(before) && AllSkipped(ss)
    requires |before + (ss + ([p] + more))| < U64 && Ascending(before + (ss + ([p] + more)), 0)
    requires var base := LastType(before, 0);
             && base <= LastType(ss, base) <= TypeOf(p)
             && Ascending(ss, base) && AllReadOver(ss, base, base)
             && !IsDefined(base + (TypeOf(p) - LastType(ss, base)))
    ensures ParseParameters(SpecEncoding(before + (ss + ([p] + more))) + rest) == Reject
  {
    hide ItemBytes, ParseItem, ParseParameters, SpecEncoding, ReadOver, KeptOf;
    var base := LastType(before, 0);
    var tail := [p] + more;
    var prev := LastType(ss, base);
    RunInFront(before, ss, tail, rest);
    assert tail[1..] == more;
    Concat3(ItemBytes(p, prev), BodyBytes(more, TypeOf(p)), rest);
    UndefinedType(p, prev, base, BodyBytes(more, TypeOf(p)) + rest);
  }

  lemma UndefinedType(p: SpecParameter, prev: u64, base: u64, rest: bytes)
    requires base <= prev <= TypeOf(p) && !IsDefined(base + (TypeOf(p) - prev))
    ensures ParseItem(ItemBytes(p, prev) + rest, base) == Reject
  {
    hide ItemBytes, ParseItem, ValueBytes;
    ResolvesAgainstBase(p, prev, base, rest);
  }

  /** Kept parameters, a run that is read over, and the rest of the list. */
  lemma RunInFront(before: seq<SpecParameter>, ss: seq<SpecParameter>, tail: seq<SpecParameter>, rest: bytes)
    requires AllKept(before) && AllSkipped(ss)
    requires |before + (ss + tail)| < U64 && Ascending(before + (ss + tail), 0)
    requires Ascending(ss, LastType(before, 0)) && AllReadOver(ss, LastType(before, 0), LastType(before, 0))
    ensures var base := LastType(before, 0);
            && Ascending(tail, LastType(ss, base))
            && ParseParameters(SpecEncoding(before + (ss + tail)) + rest) ==
               PrependTo(KeptOf(before), ParseBody(|tail|, base, BodyBytes(tail, LastType(ss, base)) + rest))
  {
    hide ItemBytes, ParseItem, ParseParameters, SpecEncoding, ReadOver, ParseBody;
    var base := LastType(before, 0);
    CountThenBody(before + (ss + tail), rest);
    AscendingTail(before, ss + tail, 0);
    SkippedRun(ss, tail, base, base, rest);
    KeptRun(before, ss + tail, 0, rest, ParseBody(|tail|, base, BodyBytes(tail, LastType(ss, base)) + rest));
  }

  /** With one run of skipped parameters that is read over, the decoder returns the others if and only if
      the run comes last. */
  lemma RunOfSkipped(before: seq<SpecParameter>, ss: seq<SpecParameter>, after: seq<SpecParameter>, rest: bytes)
    requires AllKept(before) && ss != [] && AllSkipped(ss) && AllKept(after)
    requires |before + (ss + after)| < U64 && Ascending(before + (ss + after), 0)
    requires Ascending(ss, LastType(before, 0)) && AllReadOver(ss, LastType(before, 0), LastType(before, 0))
    ensures var ps := before + (ss + after);
            ParseParameters(SpecEncoding(ps) + rest) == Accept(KeptOf(ps), rest) <==> after == []
  {
    hide ItemBytes, ParseItem, ParseParameters, SpecEncoding, ReadOver;
    var base := LastType(before, 0);
    RunInFront(before, ss, after, rest);
    KeptOfConcat(before, ss + after);
    KeptOfConcat(ss, after);
    KeptOfSkipped(ss);
    if after == [] {
      assert [] + rest == rest;
    } else {
      RunIsAscending(ss, base);
      LostAfterSkip(base, ss[|ss| - 1], after, rest);
      KeptOfAll(after);
    }
  }

  lemma {:induction false} RunIsAscending(ss: seq<SpecParameter>, prev: u64)
    requires Ascending(ss, prev)
    ensures prev <= LastType(ss, prev) && forall p :: p in ss ==> InDraft(p)
  {
    if ss != [] {
      RunIsAscending(ss[1..], TypeOf(ss[0]));
    }
  }

  lemma {:induction false} KeptOfSkipped(ss: seq<SpecParameter>)
    requires AllSkipped(ss)
    ensures KeptOf(ss) == []
  {
    if ss != [] {
      KeptOfSkipped(ss[1..]);
    }
  }

  /** The first skipped parameter is taken for what it is. */
  lemma OneIsReadOver(p: SpecParameter, base: u64)
    requires InDraft(p) && !p.Kept? && base <= TypeOf(p)
    ensures Ascending([p], base) && TakenFor([p], base, base) == [TypeOf(p)] && AllReadOver([p], base, base)
  {
  }

  /** With one skipped parameter in the list, the decoder returns the others if and only if the
      skipped one comes last. */
  lemma OneSkipped(before: seq<SpecParameter>, skipped: SpecParameter, after: seq<SpecParameter>, rest: bytes)
    requires AllKept(before) && !skipped.Kept? && AllKept(after)
    requires |before + ([skipped] + after)| < U64 && Ascending(before + ([skipped] + after), 0)
    ensures var ps := before + ([skipped] + after);
            ParseParameters(SpecEncoding(ps) + rest) == Accept(KeptOf(ps), rest) <==> after == []
  {
    hide ParseParameters, SpecEncoding, KeptOf;
    AscendingTail(before, [skipped] + after, 0);
    OneIsReadOver(skipped, LastType(before, 0));
    RunOfSkipped(before, [skipped], after, rest);
  }

  /** What follows a skipped parameter is rejected, or, after a leading EXPIRES, loses its first
      parameter. */
  lemma LostAfterSkip(base: u64, skipped: SpecParameter, after: seq<SpecParameter>, rest: bytes)
    requires base in {0, LARGEST_OBJECT, FORWARD, SUBSCRIPTION_FILTER}
    requires InDraft(skipped) && !skipped.Kept? && base <= TypeOf(skipped)
    requires after != [] && AllKept(after) && Ascending(after, TypeOf(skipped))
    ensures var o := ParseBody(|after|, base, BodyBytes(after, TypeOf(skipped)) + rest);
            o.Accept? ==>
              |o.value| < |after| && base == 0 && TypeOf(skipped) == EXPIRES && after[0].parameter.Forward?
  {
    hide ItemBytes, ParseItem;
    var more := BodyBytes(after[1..], TypeOf(after[0])) + rest;
    Concat3(ItemBytes(after[0], TypeOf(skipped)), BodyBytes(after[1..], TypeOf(after[0])), rest);
    AfterSkip(base, skipped, after[0].parameter, more);
    SkippedItem(|after| - 1, base, BodyBytes(after, TypeOf(skipped)) + rest);
  }

  /** The first kept parameter after a run of skipped ones that is read over decides, whatever comes
      after it: only the type of the last skipped one matters, and the list is rejected unless it starts
      with the run, the run ends with EXPIRES and the kept one is FORWARD, which is then taken for
      EXPIRES. */
  lemma FirstKeptAfterSkip(before: seq<SpecParameter>, ss: seq<SpecParameter>, next: SpecParameter,
                           more: seq<SpecParameter>, rest: bytes)
    requires AllKept(before) && ss != [] && AllSkipped(ss) && next.Kept?
    requires |before + (ss + ([next] + more))| < U64 && Ascending(before + (ss + ([next] + more)), 0)
    requires Ascending(ss, LastType(before, 0)) && AllReadOver(ss, LastType(before, 0), LastType(before, 0))
    ensures ParseParameters(SpecEncoding(before + (ss + ([next] + more))) + rest).Accept? ==>
              before == [] && TypeOf(ss[|ss| - 1]) == EXPIRES && next.parameter.Forward?
  {
    hide ItemBytes, ParseItem, ParseParameters, SpecEncoding, KeptOf, ReadOver;
    var base := LastType(before, 0);
    var tail := [next] + more;
    RunInFront(before, ss, tail, rest);
    RunIsAscending(ss, base);
    assert tail[1..] == more;
    Concat3(ItemBytes(next, LastType(ss, base)), BodyBytes(more, TypeOf(next)), rest);
    AfterSkip(base, ss[|ss| - 1], next.parameter, BodyBytes(more, TypeOf(next)) + rest);
  }

  // ----- skipped parameters anywhere -----

  /** Every kept parameter follows a kept one or is the first, and every skipped one is taken for a type
      as which its value is read over. */
  predicate ReadsRight(ps: seq<SpecParameter>, prev: u64, base: u64)
    requires base <= prev && Ascending(ps, prev)
  {
    ps == [] ||
    var p := ps[0];
    if p.Kept? then base == prev && ReadsRight(ps[1..], TypeOf(p), TypeOf(p))
    else ReadOver(p, base + (TypeOf(p) - prev)) && ReadsRight(ps[1..], TypeOf(p), base)
  }

  lemma {:induction false} ReadRight(ps: seq<SpecParameter>, prev: u64, base: u64, rest: bytes)
    requires base <= prev && Ascending(ps, prev) && ReadsRight(ps, prev, base)
    ensures ParseBody(|ps|, base, BodyBytes(ps, prev) + rest) == Accept(KeptOf(ps), rest)
  {
    hide ItemBytes, ParseItem, ReadOver;
    if ps == [] {
      assert [] + rest == rest;
    } else {
      var p := ps[0];
      assert ps == [p] + ps[1..];
      if p.Kept? {
        ReadRight(ps[1..], TypeOf(p), TypeOf(p), rest);
        ListStep(p, ps[1..], prev, rest);
      } else {
        ReadRight(ps[1..], TypeOf(p), base, rest);
        SkipStep(p, ps[1..], prev, base, rest);
      }
    }
  }

  /** With any number of skipped parameters, it is enough that none of them comes before a kept one and
      that each is read over as the type that it is taken for, which for the second and later ones is not
      necessarily its own. `MisreadingsCanCancel` shows that this is not necessary. */
  lemma SeveralSkipped(ps: seq<SpecParameter>, rest: bytes)
    requires |ps| < U64 && Ascending(ps, 0) && ReadsRight(ps, 0, 0)
    ensures ParseParameters(SpecEncoding(ps) + rest) == Accept(KeptOf(ps), rest)
  {
    hide ParseParameters, SpecEncoding;
    CountThenBody(ps, rest);
    ReadRight(ps, 0, 0, rest);
  }

  lemma SkippedItem(n: nat, base: u64, s: bytes)
    requires ParseItem(s, base).Accept? ==> ParseItem(s, base).value == Skip
    ensures ParseBody(n + 1, base, s).Accept? ==> ParseItem(s, base).Accept?
    ensures ParseBody(n + 1, base, s).Accept? ==> |ParseBody(n + 1, base, s).value| <= n
  {
    if ParseItem(s, base).Accept? {
      AtMostCount(n, base, ParseItem(s, base).rest);
    }
  }

  /** With several skipped parameters the misreadings can cancel out: the list EXPIRES(0), FORWARD(1),
      SUBSCRIBER_PRIORITY(1) is read as two EXPIRES and a FORWARD(1). */
  lemma MisreadingsCanCancel()
    ensures var ps := [Number(EXPIRES, 0), Kept(Forward(1)), Octet(SUBSCRIBER_PRIORITY, 1)];
            && Ascending(ps, 0)
            && SpecEncoding(ps) == [3, 8, 0, 8, 1, 0x10, 1]
            && ParseParameters(SpecEncoding(ps)) == Accept(KeptOf(ps), [])
  {
    MisreadList();
    MisreadResult();
  }

  lemma MisreadResult()
    ensures ParseParameters([3, 8, 0, 8, 1, 0x10, 1]) == Accept([Forward(1)], [])
  {
    hide ParseItem, ParseVarint;
    var s3 := [0x10, 1];
    var s2 := [8, 1] + s3;
    var s1 := [8, 0] + s2;
    assert [3, 8, 0, 8, 1, 0x10, 1] == [3] + s1;
    OneByteParses(3, s1);
    MisreadExpires(0, s2);
    MisreadExpires(1, s3);
    ForwardParses(1);
    BodyStep(0, 0, s3, Keep(FORWARD, Forward(1)), []);
    assert [Forward(1)] + [] == [Forward(1)];
    BodyStep(1, 0, s2, Skip, s3);
    BodyStep(2, 0, s1, Skip, s2);
    ParametersFromParts([3] + s1, 3, s1);
  }

  lemma MisreadList()
    ensures var ps := [Number(EXPIRES, 0), Kept(Forward(1)), Octet(SUBSCRIBER_PRIORITY, 1)];
            && Ascending(ps, 0) && KeptOf(ps) == [Forward(1)]
            && SpecEncoding(ps) == [3, 8, 0, 8, 1, 0x10, 1]
  {
    hide ItemBytes, Encode;
    var p0, p1, p2 := Number(EXPIRES, 0), Kept(Forward(1)), Octet(SUBSCRIBER_PRIORITY, 1);
    MisreadItems();
    ConsAscending(p2, [], FORWARD);
    ConsAscending(p1, [p2], EXPIRES);
    ConsAscending(p0, [p1, p2], 0);
    assert [p1] + [p2] == [p1, p2] && [p0] + [p1, p2] == [p0, p1, p2];
    OneByte(3);
    assert [3] + ([8, 0] + ([8, 1] + ([0x10, 1] + []))) == [3, 8, 0, 8, 1, 0x10, 1];
  }

  lemma MisreadItems()
    ensures ItemBytes(Number(EXPIRES, 0), 0) == [8, 0]
    ensures ItemBytes(Kept(Forward(1)), EXPIRES) == [8, 1]
    ensures ItemBytes(Octet(SUBSCRIBER_PRIORITY, 1), FORWARD) == [0x10, 1]
  {
    OneByte(8);
    OneByte(0);
    OneByte(0x10);
  }

  lemma ConsAscending(p: SpecParameter, ps: seq<SpecParameter>, prev: u64)
    requires InDraft(p) && prev <= TypeOf(p) && Ascending(ps, TypeOf(p))
    ensures Ascending([p] + ps, prev)
    ensures BodyBytes([p] + ps, prev) == ItemBytes(p, prev) + BodyBytes(ps, TypeOf(p))
    ensures KeptOf([p] + ps) == (if p.Kept? then [p.parameter] else []) + KeptOf(ps)
  {
    hide ItemBytes;
    assert ([p] + ps)[1..] == ps;
  }

  lemma MisreadExpires(v: byte, rest: bytes)
    requires v < 0x80
    ensures ParseItem([8, v] + rest, 0) == Accept(Skip, rest)
  {
    assert [8, v] + rest == [8] + ([v] + rest);
    OneByteParses(8, [v] + rest);
    OneByteParses(v, rest);
    ItemFromParts([8, v] + rest, 0, 8, [v] + rest);
  }

  lemma ForwardParses(b: byte)
    ensures ParseItem([0x10, b], 0) == Accept(Keep(FORWARD, Forward(b)), [])
  {
    assert [0x10, b] == [0x10] + [b];
    OneByteParses(0x10, [b]);
    ItemFromParts([0x10, b], 0, 0x10, [b]);
    assert [b][1..] == [];
  }

  lemma OneByte(v: byte)
    requires v < 0x80
    ensures Encode(v) == [v]
  {
  }

  lemma OneByteParses(v: byte, rest: bytes)
    requires v < 0x80
    ensures ParseVarint([v] + rest) == Accept(v, rest)
  {
    OneByte(v);
    RoundTrip(v, rest);
  }

  // ----- locality -----

  lemma LocationIsLocal(s: bytes, more: bytes)
    requires ParseLocation(s).Accept?
    ensures ParseLocation(s + more) == Accept(ParseLocation(s).value, ParseLocation(s).rest + more)
  {
    ParseIsLocal(s, more);
    ParseIsLocal(ParseVarint(s).rest, more);
  }

  lemma FilterIsLocal(s: bytes, more: bytes)
    requires ParseFilterParameter(s).Accept?
    ensures ParseFilterParameter(s + more) ==
            Accept(ParseFilterParameter(s).value, ParseFilterParameter(s).rest + more)
  {
    BlockIsLocal(s, more);
  }

  lemma TypedIsLocal(t: u64, s: bytes, more: bytes)
    requires ParseTyped(t, s).Accept?
    ensures ParseTyped(t, s + more) == Accept(ParseTyped(t, s).value, ParseTyped(t, s).rest + more)
  {
    if t == SUBSCRIPTION_FILTER {
      FilterIsLocal(s, more);
    } else if t == LARGEST_OBJECT {
      LocationIsLocal(s, more);
    } else if t == AUTHORIZATION_TOKEN {
      BlockIsLocal(s, more);
    } else if IsNumberType(t) {
      ParseIsLocal(s, more);
    } else {
      assert (s + more)[1..] == s[1..] + more;
    }
  }

  lemma ItemIsLocal(s: bytes, base: u64, more: bytes)
    requires ParseItem(s, base).Accept?
    ensures ParseItem(s + more, base) == Accept(ParseItem(s, base).value, ParseItem(s, base).rest + more)
  {
    var Accept(delta, s1) := ParseVarint(s);
    ParseIsLocal(s, more);
    TypedIsLocal(base + delta, s1, more);
    ItemFromParts(s, base, delta, s1);
    ItemFromParts(s + more, base, delta, s1 + more);
  }

  lemma {:induction false} BodyIsLocal(n: nat, base: u64, s: bytes, more: bytes)
    requires ParseBody(n, base, s).Accept?
    ensures ParseBody(n, base, s + more) == Accept(ParseBody(n, base, s).value, ParseBody(n, base, s).rest + more)
  {
    hide ParseItem;
    if n > 0 {
      var i, rest := FirstItem(n - 1, base, s);
      ItemIsLocal(s, base, more);
      BodyIsLocal(n - 1, NextBase(i, base), rest, more);
      BodyStep(n - 1, base, s + more, i, rest + more);
    }
  }

  lemma FirstItem(n: nat, base: u64, s: bytes) returns (i: Item, rest: bytes)
    requires ParseBody(n + 1, base, s).Accept?
    ensures ParseItem(s, base) == Accept(i, rest) && ParseBody(n, NextBase(i, base), rest).Accept?
  {
    i, rest := ParseItem(s, base).value, ParseItem(s, base).rest;
    BodyStep(n, base, s, i, rest);
  }

  lemma ParametersAreLocal(s: bytes, more: bytes)
    requires ParseParameters(s).Accept?
    ensures ParseParameters(s + more) == Accept(ParseParameters(s).value, ParseParameters(s).rest + more)
  {
    var Accept(count, s1) := ParseVarint(s);
    ParseIsLocal(s, more);
    BodyIsLocal(count, 0, s1, more);
    ParametersFromParts(s, count, s1);
    ParametersFromParts(s + more, count, s1 + more);
  }

  lemma ParametersFromParts(s: bytes, count: u64, s1: bytes)
    requires ParseVarint(s) == Accept(count, s1)
    ensures ParseParameters(s) == ParseBody(count, 0, s1)
  {
    AtMostCount(count, 0, s1);
  }

  // ----- the encoder -----

  predicate Encodable(p: MessageParameter) { p.FilterParameter? ==> p.filter == NextGroupStart }

  function EncodeBody(ps: seq<MessageParameter>, prev: u64): Option<bytes> {
    if ps == [] then Some([])
    else if ParamTypeId(ps[0]) < prev || !Encodable(ps[0]) then None
    else
      match EncodeBody(ps[1..], ParamTypeId(ps[0]))
      case None => None
      case Some(s) => Some(ItemBytes(Kept(ps[0]), prev) + s)
  }

  function EncodeParams(ps: Parameters): Option<bytes> {
    match EncodeBody(ps, 0)
    case None => None
    case Some(s) => Some(Encode(|ps|) + s)
  }

  function AsKept(ps: seq<MessageParameter>): (qs: seq<SpecParameter>)
    ensures |qs| == |ps| && AllKept(qs) && KeptOf(qs) == ps
  {
    if ps == [] then []
    else
      var tail := AsKept(ps[1..]);
      assert ([Kept(ps[0])] + tail)[1..] == tail;
      [Kept(ps[0])] + tail
  }

  /** The encoder accepts exactly the ascending lists without absolute or largest-object filters, and
      what it writes is the encoding that section 9.3 prescribes. */
  lemma {:induction false} EncodesAsDraft(ps: seq<MessageParameter>, prev: u64)
    ensures EncodeBody(ps, prev).Some? <==> Ascending(AsKept(ps), prev) && forall p :: p in ps ==> Encodable(p)
    ensures EncodeBody(ps, prev).Some? ==> EncodeBody(ps, prev).value == BodyBytes(AsKept(ps), prev)
  {
    if ps != [] {
      var t := ParamTypeId(ps[0]);
      EncodesAsDraft(ps[1..], t);
      assert AsKept(ps)[1..] == AsKept(ps[1..]);
      assert ps == [ps[0]] + ps[1..];
    }
  }

  /** Decoding inverts encoding, on every list that the encoder accepts. */
  lemma ParametersRoundTrip(ps: Parameters, rest: bytes)
    requires EncodeParams(ps).Some?
    ensures ParseParameters(EncodeParams(ps).value + rest) == Accept(ps, rest)
  {
    EncodesAsDraft(ps, 0);
    KeptRoundTrip(AsKept(ps), rest);
  }

  // ----- what the decoder accepts -----

  lemma EncodeMonotone(a: u64, b: u64)
    requires a <= b
    ensures |Encode(a)| <= |Encode(b)|
  {
  }

  lemma FilterIsShortest(s: bytes)
    requires ParseFilter(s).Accept?
    ensures |FilterBytes(ParseFilter(s).value)| <= |s|
  {
    hide Encode, ParseVarint;
    EncodeIsShortest(s);
    var Accept(t, s1) := ParseVarint(s);
    if t == 3 || t == 4 {
      EncodeIsShortest(s1);
      var s2 := ParseVarint(s1).rest;
      EncodeIsShortest(s2);
      if t == 4 {
        EncodeIsShortest(ParseVarint(s2).rest);
      }
    }
  }

  lemma FilterParameterIsShortest(s: bytes)
    requires ParseFilterParameter(s).Accept?
    ensures var Accept(f, rest) := ParseFilterParameter(s);
            |EncodeBlock(FilterBytes(f))| + |rest| <= |s|
  {
    hide Encode, ParseVarint, FilterBytes, ParseFilter;
    var payload := ParseBlock(s).value;
    BlockIsShortest(s);
    FilterIsShortest(payload);
    EncodeMonotone(|FilterBytes(ParseFilter(payload).value)|, |payload|);
  }

  lemma LocationIsShortest(s: bytes)
    requires ParseLocation(s).Accept?
    ensures var Accept(p, rest) := ParseLocation(s);
            p.LargestObject? && |KeptBytes(p)| + |rest| <= |s|
  {
    hide Encode, ParseVarint;
    EncodeIsShortest(s);
    EncodeIsShortest(ParseVarint(s).rest);
  }

  lemma TypedIsShortest(t: u64, s: bytes)
    requires ParseTyped(t, s).Accept?
    ensures var Accept(v, rest) := ParseTyped(t, s);
            && (v.Some? ==> ParamTypeId(v.value) == t && |KeptBytes(v.value)| + |rest| <= |s|)
            && |rest| <= |s|
  {
    hide Encode, ParseVarint, ParseBlock, ParseFilterParameter, ParseLocation, FilterBytes, EncodeBlock;
    if t == SUBSCRIPTION_FILTER {
      FilterParameterIsShortest(s);
    } else if t == LARGEST_OBJECT {
      LocationIsShortest(s);
    } else if t == AUTHORIZATION_TOKEN {
      BlockIsShortest(s);
    } else if IsNumberType(t) {
      EncodeIsShortest(s);
    }
  }

  lemma ItemIsShortest(s: bytes, base: u64)
    requires ParseItem(s, base).Accept?
    ensures var Accept(i, rest) := ParseItem(s, base);
            && (i.Keep? ==> i.typeId == ParamTypeId(i.parameter) >= base
                            && |ItemBytes(Kept(i.parameter), base)| + |rest| <= |s|)
            && |rest| <= |s|
  {
    hide Encode, ParseVarint, ParseTyped, KeptBytes;
    EncodeIsShortest(s);
    var Accept(delta, s1) := ParseVarint(s);
    TypedIsShortest(base + delta, s1);
  }

  /** The decoder returns ascending lists only, and a list takes up at least the bytes of its
      canonical encoding. */
  lemma {:induction false} AcceptedBody(n: nat, base: u64, s: bytes)
    requires ParseBody(n, base, s).Accept?
    ensures var Accept(ps, rest) := ParseBody(n, base, s);
            Ascending(AsKept(ps), base) && |BodyBytes(AsKept(ps), base)| + |rest| <= |s|
  {
    hide ParseItem, ItemBytes;
    if n > 0 {
      var i, rest := FirstItem(n - 1, base, s);
      ItemIsShortest(s, base);
      AcceptedBody(n - 1, NextBase(i, base), rest);
      if i.Keep? {
        AcceptedKeep(i.parameter, ParseBody(n - 1, i.typeId, rest).value, base);
      }
    }
  }

  lemma AcceptedKeep(p: MessageParameter, ps: seq<MessageParameter>, base: u64)
    requires base <= ParamTypeId(p) && Ascending(AsKept(ps), ParamTypeId(p))
    ensures Ascending(AsKept([p] + ps), base)
    ensures BodyBytes(AsKept([p] + ps), base) == ItemBytes(Kept(p), base) + BodyBytes(AsKept(ps), ParamTypeId(p))
  {
    hide ItemBytes;
    assert ([p] + ps)[1..] == ps;
    assert AsKept([p] + ps)[1..] == AsKept(ps);
  }

  /** Whatever the decoder returns, the encoder accepts it if and only if it has no other filter than
      NextGroupStart, and makes it no longer. */
  lemma AcceptedParametersReencode(s: bytes)
    requires ParseParameters(s).Accept?
    ensures var Accept(ps, rest) := ParseParameters(s);
            && (EncodeParams(ps).Some? <==> forall p :: p in ps ==> Encodable(p))
            && (EncodeParams(ps).Some? ==> |EncodeParams(ps).value| + |rest| <= |s|)
  {
    hide Encode, ParseVarint, ParseBody, BodyBytes, EncodeBody;
    var Accept(count, s1) := ParseVarint(s);
    ParametersFromParts(s, count, s1);
    var ps := ParseParameters(s).value;
    EncodeIsShortest(s);
    AtMostCount(count, 0, s1);
    EncodeMonotone(|ps|, count);
    AcceptedBody(count, 0, s1);
    EncodesAsDraft(ps, 0);
  }

  // ----- the code -----

  method EncodeParameters(params: Parameters, buf: Buffer) returns (r: Result<()>)
    modifies buf
    ensures match EncodeParams(params)
            case Some(s) => r == Ok(()) && buf.data == old(buf.data) + s
            case None => r == Err
  {
    hide Encode, EncodeBody, ItemBytes, KeptBytes;
    EncodeVarint(|params|, buf);
    ghost var before := buf.data;
    ghost var done: bytes := [];
    var prevType: u64 := 0;
    var i := 0;
    WholeBody(params);
    while i < |params|
      invariant 0 <= i <= |params|
      invariant buf.data == before + done
      invariant EncodeBody(params, 0) == Join(done, EncodeBody(params[i..], prevType))
    {
      var param := params[i];
      BodyFrom(params, i, prevType, done);
      var typeId := ParamTypeId(param);
      if !(typeId >= prevType || prevType == 0) {
        return Err;
      }
      EncodeVarint(typeId - prevType, buf);
      var _ :- WriteValue(param, buf);
      AppendItem(before, done, param, prevType);
      done := done + ItemBytes(Kept(param), prevType);
      prevType := typeId;
      i := i + 1;
    }
    BodyEnd(params[i..], prevType, done);
    Concat3(old(buf.data), Encode(|params|), done);
    r := Ok(());
  }

  function Join(s: bytes, o: Option<bytes>): Option<bytes> {
    match o case None => None case Some(t) => Some(s + t)
  }

  lemma WholeBody(ps: seq<MessageParameter>)
    ensures ps[0..] == ps && Join([], EncodeBody(ps, 0)) == EncodeBody(ps, 0)
  {
    var o := EncodeBody(ps, 0);
    if o.Some? {
      assert [] + o.value == o.value;
    }
  }

  lemma BodyFrom(ps: seq<MessageParameter>, i: nat, prev: u64, done: bytes)
    requires i < |ps|
    ensures Join(done, EncodeBody(ps[i..], prev)) ==
            if ParamTypeId(ps[i]) < prev || !Encodable(ps[i]) then None
            else Join(done + ItemBytes(Kept(ps[i]), prev), EncodeBody(ps[i + 1..], ParamTypeId(ps[i])))
  {
    assert ps[i..][0] == ps[i] && ps[i..][1..] == ps[i + 1..];
    var o := EncodeBody(ps[i + 1..], ParamTypeId(ps[i]));
    if prev <= ParamTypeId(ps[i]) && o.Some? {
      Concat3(done, ItemBytes(Kept(ps[i]), prev), o.value);
    }
  }

  lemma BodyEnd(ps: seq<MessageParameter>, prev: u64, done: bytes)
    requires ps == []
    ensures Join(done, EncodeBody(ps, prev)) == Some(done)
  {
    assert done + [] == done;
  }

  lemma AppendItem(before: bytes, done: bytes, p: MessageParameter, prev: u64)
    requires prev <= ParamTypeId(p)
    ensures before + done + Encode(ParamTypeId(p) - prev) + KeptBytes(p) == before + (done + ItemBytes(Kept(p), prev))
  {
    hide Encode, KeptBytes;
    Concat3(before, done, Encode(ParamTypeId(p) - prev));
    Concat3(before, done + Encode(ParamTypeId(p) - prev), KeptBytes(p));
    Concat3(done, Encode(ParamTypeId(p) - prev), KeptBytes(p));
  }

  method WriteValue(param: MessageParameter, buf: Buffer) returns (r: Result<()>)
    modifies buf
    ensures r.Ok? <==> Encodable(param)
    ensures r.Ok? ==> buf.data == old(buf.data) + KeptBytes(param)
  {
    match param {
      case FilterParameter(filter) =>
        var filterPayload := new Buffer();
        match filter {
          case NextGroupStart => EncodeVarint(0x1, filterPayload);
          case _ => return Err;
        }
        assert [] + Encode(1) == Encode(1);
        EncodeVarint(|filterPayload.data|, buf);
        buf.Extend(filterPayload.data);
      case LargestObject(group, object_) =>
        EncodeVarint(group, buf);
        EncodeVarint(object_, buf);
      case Forward(v) =>
        buf.Push(v);
    }
    r := Ok(());
  }

  method DecodeParameters(buf: Cursor) returns (r: Result<Parameters>)
    modifies buf
    ensures Follows(r, buf.left, ParseParameters(old(buf.left)))
  {
    var count :- DecodeVarint(buf);
    var params: seq<MessageParameter> := [];
    var prevType: u64 := 0;
    ghost var input := buf.left;
    var i := 0;
    PrependToTwice([], [], ParseBody(count, 0, input));
    while i < count
      invariant 0 <= i <= count
      invariant ParseBody(count, 0, input) == PrependTo(params, ParseBody(count - i, prevType, buf.left))
    {
      ghost var s := buf.left;
      var item :- ReadItem(prevType, buf);
      i := i + 1;
      BodyStep(count - i, prevType, s, item, buf.left);
      match item {
        case Skip =>
        case Keep(typeId, param) =>
          PrependToTwice(params, [param], ParseBody(count - i, typeId, buf.left));
          params := params + [param];
          prevType := typeId;
      }
    }
    EmptyTail([], params);
    AtMostCount(count, 0, input);
    r := Ok(params);
  }

  /** The reads of one round of the loop; `Skip` is its `continue`. */
  method ReadItem(prevType: u64, buf: Cursor) returns (r: Result<Item>)
    modifies buf
    ensures Follows(r, buf.left, ParseItem(old(buf.left), prevType))
  {
    var delta :- DecodeVarint(buf);
    if prevType + delta >= U64 {
      return Err;
    }
    var typeId: u64 := prevType + delta;
    ItemFromParts(old(buf.left), prevType, delta, buf.left);
    var param :- ReadTyped(typeId, buf);
    r := Ok(if param.Some? then Keep(typeId, param.value) else Skip);
  }

  /** The arms of the match on the type: a kept value, or a value that is read and dropped. */
  method ReadTyped(typeId: u64, buf: Cursor) returns (r: Result<Option<MessageParameter>>)
    modifies buf
    ensures Follows(r, buf.left, ParseTyped(typeId, old(buf.left)))
  {
    if typeId == SUBSCRIPTION_FILTER {
      var filter :- ReadFilter(buf);
      r := Ok(Some(FilterParameter(filter)));
    } else if typeId == LARGEST_OBJECT {
      var group :- DecodeVarint(buf);
      var object_ :- DecodeVarint(buf);
      r := Ok(Some(LargestObject(group, object_)));
    } else if typeId == FORWARD {
      if buf.left == [] {
        return Err;
      }
      var v := buf.left[0];
      buf.left := buf.left[1..];
      r := Ok(Some(Forward(v)));
    } else if typeId in {DELIVERY_TIMEOUT, RENDEZVOUS_TIMEOUT, EXPIRES, NEW_GROUP_REQUEST} {
      var _ :- DecodeVarint(buf);
      r := Ok(None);
    } else if typeId == AUTHORIZATION_TOKEN {
      var len :- DecodeVarint(buf);
      var _ :- buf.Take(len);
      r := Ok(None);
    } else if typeId in {SUBSCRIBER_PRIORITY, GROUP_ORDER} {
      if buf.left == [] {
        return Err;
      }
      buf.left := buf.left[1..];
      r := Ok(None);
    } else {
      r := Err;
    }
  }

  method ReadFilter(buf: Cursor) returns (r: Result<SubscriptionFilter>)
    modifies buf
    ensures Follows(r, buf.left, ParseFilterParameter(old(buf.left)))
  {
    var len :- DecodeVarint(buf);
    var payload :- buf.Take(len);
    var filterPayload := new Cursor(payload);
    r := ReadFilterPayload(filterPayload);
  }

  method ReadFilterPayload(buf: Cursor) returns (r: Result<SubscriptionFilter>)
    modifies buf
    ensures Follows(r, buf.left, ParseFilter(old(buf.left)))
  {
    var filterType :- DecodeVarint(buf);
    if filterType == 0x1 {
      r := Ok(NextGroupStart);
    } else if filterType == 0x2 {
      r := Ok(LargestObjectFilter);
    } else if filterType == 0x3 {
      var group :- DecodeVarint(buf);
      var object_ :- DecodeVarint(buf);
      r := Ok(AbsoluteStart(group, object_));
    } else if filterType == 0x4 {
      var group :- DecodeVarint(buf);
      var object_ :- DecodeVarint(buf);
      var endGroupDelta :- DecodeVarint(buf);
      r := Ok(AbsoluteRange(group, object_, endGroupDelta));
    } else {
      r := Err;
    }
  }
}
