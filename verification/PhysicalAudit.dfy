/** Audit of the physical record order on disk against chunk lifecycles and the fixed input. */
module PhysicalAudit {
  import opened Wrappers

  type Byte = b: int | 0 <= b < 256

  const LENGTH_LIMIT := 0x1_0000_0000  // struct.pack("!I") refuses anything longer

  datatype Record = Record(ordinal: int, payload: seq<Byte>, connection: string, receiveNs: int, flags: seq<string>)

  datatype Chunk = Chunk(
    id: string,
    market: string,
    symbol: string,
    stream: string,
    instances: Option<seq<string>>,  // None: not a list
    recordCount: int,
    records: seq<Record>)

  /** First ACTIVE and first SEALED transition id of a chunk. */
  datatype Lifecycle = Lifecycle(active: Option<int>, sealed: Option<int>)

  type Lifecycles = map<string, Lifecycle>

  datatype Owner = Owner(market: string, symbol: string, stream: string, instance: string)

  /** One physical record, tagged with the chunk's label and owner. */
  datatype Item = Item(name: string, owner: Owner, record: Record)

  /** Frame count and the bytes fed to the digest of one label. */
  datatype Fed = Fed(frames: nat, bytes: seq<Byte>)

  datatype Evidence = Evidence(id: string, active: int, sealed: int, records: nat)

  datatype AuditReport = AuditReport(
    actual: map<string, Fed>,
    flags: multiset<string>,
    counts: multiset<string>,
    evidence: seq<Evidence>)

  datatype AuditError =
    | InvalidLifecycle(id: string)
    | SeveralWriters
    | OverlappingLifecycles(owner: Owner)
    | OrdinalDiscontinuity
    | ReceiveInversion(id: string, ordinal: int)
    | PayloadTooLong
    | CountDiffers
    | InputDiffers

  // ---------------------------------------------------------------- lifecycles and their order

  function Label(c: Chunk): string {
    c.market + "/" + c.symbol + "/" + c.stream
  }

  function OwnerOf(c: Chunk): Owner {
    Owner(c.market, c.symbol, c.stream, if OneWriter(c) then c.instances.value[0] else "")
  }

  predicate OneWriter(c: Chunk) {
    c.instances.Some? && |c.instances.value| == 1
  }

  /** One incarnation of one stream's writer wrote both chunks. */
  predicate SameWriter(a: Chunk, b: Chunk) {
    a.market == b.market && a.symbol == b.symbol && a.stream == b.stream && a.instances == b.instances
  }

  lemma OwnersAreWriters(a: Chunk, b: Chunk)
    requires OneWriter(a) && OneWriter(b)
    ensures OwnerOf(a) == OwnerOf(b) <==> SameWriter(a, b)
  {
    assert a.instances.value == [a.instances.value[0]] && b.instances.value == [b.instances.value[0]];
  }

  /** Streams of different markets or symbols never share a label, as long as no market or symbol has a slash in it. */
  lemma LabelsNameStreams(a: Chunk, b: Chunk)
    requires '/' !in a.market && '/' !in b.market && '/' !in a.symbol && '/' !in b.symbol
    ensures Label(a) == Label(b) <==> a.market == b.market && a.symbol == b.symbol && a.stream == b.stream
    ensures a.market + "/" + a.symbol + "/" <= Label(a) && |Label(a)| == |a.market| + |a.symbol| + |a.stream| + 2
  {
    assert Label(a) == a.market + "/" + (a.symbol + "/" + a.stream);
    assert Label(b) == b.market + "/" + (b.symbol + "/" + b.stream);
    if Label(a) == Label(b) {
      SplitsAtSlash(a.market, a.symbol + "/" + a.stream, b.market, b.symbol + "/" + b.stream);
      SplitsAtSlash(a.symbol, a.stream, b.symbol, b.stream);
    }
  }

  lemma SplitsAtSlash(a: string, rest: string, b: string, more: string)
    requires '/' !in a && '/' !in b
    ensures a + "/" + rest == b + "/" + more ==> a == b && rest == more
  {
    var x, y := a + "/" + rest, b + "/" + more;
    if x == y {
      assert x[|a|] == '/' && y[|b|] == '/';
      assert |a| == |b|;
      assert x[..|a|] == a && y[..|b|] == b;
      assert x[|a| + 1..] == rest && y[|b| + 1..] == more;
    }
  }

  predicate Alive(lc: Lifecycles, c: Chunk) {
    && c.id in lc && lc[c.id].active.Some? && lc[c.id].sealed.Some?
    && lc[c.id].active.value < lc[c.id].sealed.value
  }

  function Active(lc: Lifecycles, c: Chunk): int {
    if Alive(lc, c) then lc[c.id].active.value else 0
  }

  function Sealed(lc: Lifecycles, c: Chunk): int {
    if Alive(lc, c) then lc[c.id].sealed.value else 0
  }

  /** Stable insertion of a chunk behind every chunk that became active no later. */
  function Insert(lc: Lifecycles, cs: seq<Chunk>, c: Chunk): seq<Chunk> {
    if cs == [] || Active(lc, cs[|cs| - 1]) <= Active(lc, c) then cs + [c]
    else Insert(lc, cs[..|cs| - 1], c) + [cs[|cs| - 1]]
  }

  function ByActive(lc: Lifecycles, chunks: seq<Chunk>): seq<Chunk> {
    if chunks == [] then [] else Insert(lc, ByActive(lc, chunks[..|chunks| - 1]), chunks[|chunks| - 1])
  }

  ghost predicate InOrder(lc: Lifecycles, cs: seq<Chunk>) {
    forall i, j :: 0 <= i < j < |cs| ==> Active(lc, cs[i]) <= Active(lc, cs[j])
  }

  /** Both lifecycles are whole, and one ends before the other begins. */
  predicate Apart(lc: Lifecycles, a: Chunk, b: Chunk) {
    && Lives(lc, a) && Lives(lc, b)
    && (lc[a.id].sealed.value < lc[b.id].active.value || lc[b.id].sealed.value < lc[a.id].active.value)
  }

  lemma {:induction false} InsertKeepsAll(lc: Lifecycles, cs: seq<Chunk>, c: Chunk)
    ensures multiset(Insert(lc, cs, c)) == multiset(cs) + multiset{c}
  {
    hide Active;
    if !(cs == [] || Active(lc, cs[|cs| - 1]) <= Active(lc, c)) {
      var n := |cs| - 1;
      InsertKeepsAll(lc, cs[..n], c);
      assert cs == cs[..n] + [cs[n]];
    }
  }

  lemma {:induction false} InsertKeepsOrder(lc: Lifecycles, cs: seq<Chunk>, c: Chunk)
    requires InOrder(lc, cs)
    ensures InOrder(lc, Insert(lc, cs, c))
    ensures forall i :: 0 <= i < |Insert(lc, cs, c)| ==>
              || Active(lc, Insert(lc, cs, c)[i]) <= Active(lc, c)
              || (cs != [] && Active(lc, Insert(lc, cs, c)[i]) <= Active(lc, cs[|cs| - 1]))
  {
    hide Active;
    if !(cs == [] || Active(lc, cs[|cs| - 1]) <= Active(lc, c)) {
      InsertKeepsOrder(lc, cs[..|cs| - 1], c);
    }
  }

  /** The audit reads the chunks in order of activation, each of them once. */
  lemma {:induction false} ByActiveSorts(lc: Lifecycles, chunks: seq<Chunk>)
    ensures InOrder(lc, ByActive(lc, chunks)) && multiset(ByActive(lc, chunks)) == multiset(chunks)
  {
    if chunks != [] {
      var n := |chunks| - 1;
      ByActiveSorts(lc, chunks[..n]);
      InsertKeepsOrder(lc, ByActive(lc, chunks[..n]), chunks[n]);
      InsertKeepsAll(lc, ByActive(lc, chunks[..n]), chunks[n]);
      hide InOrder, Insert;
      assert chunks == chunks[..n] + [chunks[n]];
    }
  }

  /** All lifecycles of one owner are pairwise disjoint, earlier ones wholly before later ones. */
  ghost predicate Sequential(lc: Lifecycles, cs: seq<Chunk>) {
    && (forall i :: 0 <= i < |cs| ==> Active(lc, cs[i]) >= 0)
    && (forall i, j :: 0 <= i < j < |cs| && OwnerOf(cs[i]) == OwnerOf(cs[j]) ==>
          Sealed(lc, cs[i]) < Active(lc, cs[j]))
  }

  /** Ordinals count up from zero without a gap, to the number the manifest gives. */
  ghost predicate Gapless(c: Chunk) {
    && (forall r :: 0 <= r < |c.records| ==> c.records[r].ordinal == r)
    && |c.records| == c.recordCount
  }

  // ---------------------------------------------------------------- the physical sequence

  function Items(c: Chunk): (items: seq<Item>)
    ensures |items| == |c.records|
  {
    seq(|c.records|, r requires 0 <= r < |c.records| => Item(Label(c), OwnerOf(c), c.records[r]))
  }

  /** Every record on disk, chunk after chunk in order of activation. */
  function Flat(cs: seq<Chunk>): seq<Item> {
    if cs == [] then [] else Flat(cs[..|cs| - 1]) + Items(cs[|cs| - 1])
  }

  /** Receive times never decrease along one connection of one owner, across chunk boundaries. */
  ghost predicate ReceiveOrdered(items: seq<Item>) {
    forall i, j :: 0 <= i < j < |items| && SameConnection(items[i], items[j]) ==>
      items[i].record.receiveNs <= items[j].record.receiveNs
  }

  function Connection(item: Item): (Owner, string) {
    (item.owner, item.record.connection)
  }

  predicate SameConnection(a: Item, b: Item) {
    a.owner == b.owner && a.record.connection == b.record.connection
  }

  /** Payloads of one label in physical order. */
  function Payloads(items: seq<Item>, name: string): (ps: seq<seq<Byte>>)
    ensures |ps| <= |items|
  {
    if items == [] then []
    else
      var n := |items| - 1;
      Payloads(items[..n], name) + if items[n].name == name then [items[n].record.payload] else []
  }

  function Flags(items: seq<Item>): multiset<string> {
    if items == [] then multiset{} else Flags(items[..|items| - 1]) + multiset(items[|items| - 1].record.flags)
  }

  function Labels(items: seq<Item>): multiset<string> {
    if items == [] then multiset{} else Labels(items[..|items| - 1]) + multiset{items[|items| - 1].name}
  }

  // ---------------------------------------------------------------- framing

  function Header(n: nat): (h: seq<Byte>)
    requires n < LENGTH_LIMIT
    ensures |h| == 4
  {
    [n / 0x100_0000, n / 0x1_0000 % 256, n / 256 % 256, n % 256]
  }

  function Frame(payload: seq<Byte>): seq<Byte>
    requires |payload| < LENGTH_LIMIT
  {
    Header(|payload|) + payload
  }

  ghost predicate Short(ps: seq<seq<Byte>>) {
    forall i :: 0 <= i < |ps| ==> |ps[i]| < LENGTH_LIMIT
  }

  /** Bytes fed to the digest by a sequence of payloads. */
  function Framed(ps: seq<seq<Byte>>): seq<Byte>
    requires Short(ps)
  {
    if ps == [] then [] else Framed(ps[..|ps| - 1]) + Frame(ps[|ps| - 1])
  }

  lemma {:induction false} FramedFromFront(p: seq<Byte>, ps: seq<seq<Byte>>)
    requires |p| < LENGTH_LIMIT && Short(ps)
    ensures Short([p] + ps) && Framed([p] + ps) == Frame(p) + Framed(ps)
  {
    hide Frame;
    var all := [p] + ps;
    if ps == [] {
      assert all == [p] && all[..0] == [];
    } else {
      var n := |ps| - 1;
      assert all[..|all| - 1] == [p] + ps[..n];
      FramedFromFront(p, ps[..n]);
    }
  }

  lemma HeaderInjective(n: nat, m: nat)
    requires n < LENGTH_LIMIT && m < LENGTH_LIMIT && Header(n) == Header(m)
    ensures n == m
  {
    assert Header(n)[0] == Header(m)[0] && Header(n)[1] == Header(m)[1];
    assert Header(n)[2] == Header(m)[2] && Header(n)[3] == Header(m)[3];
    HeaderDecodes(n);
    HeaderDecodes(m);
  }

  lemma HeaderDecodes(n: nat)
    requires n < LENGTH_LIMIT
    ensures
      var h := Header(n);
      n == (((h[0] as int) * 256 + h[1] as int) * 256 + h[2] as int) * 256 + h[3] as int
  {
    var a := n / 256;
    var b := a / 256;
    HalvesAgree(n);
    assert Header(n) == [b / 256, b % 256, a % 256, n % 256];
    hide Header;
    assert n == a * 256 + n % 256 && a == b * 256 + a % 256 && b == (b / 256) * 256 + b % 256;
  }

  /** Dividing by a power of 256 is dividing by 256 that often. */
  lemma HalvesAgree(n: nat)
    ensures n / 0x1_0000 == n / 256 / 256
    ensures n / 0x100_0000 == n / 256 / 256 / 256
  {
  }

  /** Length-prefixed framing is injective: equal digest input means equal payload sequences. */
  lemma {:induction false} FramingInjective(a: seq<seq<Byte>>, b: seq<seq<Byte>>)
    requires Short(a) && Short(b) && Framed(a) == Framed(b)
    ensures a == b
    decreases |a|
  {
    if a == [] || b == [] {
      FramedNonempty(a);
      FramedNonempty(b);
    } else {
      assert a == [a[0]] + a[1..] && b == [b[0]] + b[1..];
      FramedFromFront(a[0], a[1..]);
      FramedFromFront(b[0], b[1..]);
      FirstFrame(a[0], Framed(a[1..]), b[0], Framed(b[1..]));
      FramingInjective(a[1..], b[1..]);
    }
  }

  lemma FramedNonempty(ps: seq<seq<Byte>>)
    requires Short(ps)
    ensures ps != [] ==> |Framed(ps)| >= 4
  {
  }

  lemma FirstFrame(p: seq<Byte>, ps: seq<Byte>, q: seq<Byte>, qs: seq<Byte>)
    requires |p| < LENGTH_LIMIT && |q| < LENGTH_LIMIT && Frame(p) + ps == Frame(q) + qs
    ensures p == q && ps == qs
  {
    var l, r := Frame(p) + ps, Frame(q) + qs;
    assert l[..4] == Header(|p|) && r[..4] == Header(|q|);
    HeaderInjective(|p|, |q|);
    assert l[4..4 + |p|] == p && r[4..4 + |q|] == q;
    assert l[4 + |p|..] == ps && r[4 + |q|..] == qs;
  }

  // ---------------------------------------------------------------- what acceptance means

  ghost predicate Sized(items: seq<Item>, expected: map<string, Fed>) {
    forall i :: 0 <= i < |items| && items[i].name in expected ==> |items[i].record.payload| < LENGTH_LIMIT
  }

  lemma {:induction false} SizedIsShort(items: seq<Item>, expected: map<string, Fed>, name: string)
    requires Sized(items, expected) && name in expected
    ensures Short(Payloads(items, name))
  {
    if items != [] {
      SizedIsShort(items[..|items| - 1], expected, name);
    }
  }

  ghost predicate SameAsFed(ps: seq<seq<Byte>>, fed: Fed) {
    ps != [] && fed.frames == |ps| && Short(ps) && fed.bytes == Framed(ps)
  }

  ghost predicate Accepts(lc: Lifecycles, chunks: seq<Chunk>, expected: map<string, Fed>) {
    && (forall i :: 0 <= i < |chunks| ==> Alive(lc, chunks[i]))
    && OrderAccepts(lc, ByActive(lc, chunks))
    && ContentAccepts(Flat(ByActive(lc, chunks)), expected)
  }

  ghost predicate OrderAccepts(lc: Lifecycles, cs: seq<Chunk>) {
    && (forall i :: 0 <= i < |cs| ==> OneWriter(cs[i]) && Gapless(cs[i]))
    && Sequential(lc, cs)
  }

  ghost predicate ContentAccepts(items: seq<Item>, expected: map<string, Fed>) {
    && ReceiveOrdered(items)
    && Sized(items, expected)
    && Flags(items)["malformed"] == 0
    && (forall name :: name in expected ==> SameAsFed(Payloads(items, name), expected[name]))
  }

  /** The fixed input as the fixture writer digests it. */
  ghost predicate DigestsInput(expected: map<string, Fed>, inputs: map<string, seq<seq<Byte>>>) {
    && expected.Keys == inputs.Keys
    && (forall name :: name in inputs ==>
          Short(inputs[name]) && expected[name] == Fed(|inputs[name]|, Framed(inputs[name])))
  }

  /** The content test accepts exactly when every stream's payloads on disk are the fixed input, frame for frame. */
  lemma AcceptedPayloadsAreTheInput(items: seq<Item>, expected: map<string, Fed>, inputs: map<string, seq<seq<Byte>>>)
    requires DigestsInput(expected, inputs) && Sized(items, expected)
    ensures (forall name :: name in expected ==> SameAsFed(Payloads(items, name), expected[name])) <==>
            (forall name :: name in inputs ==> inputs[name] != [] && Payloads(items, name) == inputs[name])
  {
    forall name | name in expected
      ensures SameAsFed(Payloads(items, name), expected[name]) <==>
              inputs[name] != [] && Payloads(items, name) == inputs[name]
    {
      SizedIsShort(items, expected, name);
      if SameAsFed(Payloads(items, name), expected[name]) {
        FramingInjective(Payloads(items, name), inputs[name]);
      }
    }
  }

  /** What is asked of a chunk by itself. */
  ghost predicate SoundChunk(lc: Lifecycles, c: Chunk) {
    && Lives(lc, c) && lc[c.id].active.value >= 0
    && (exists writer: string :: c.instances == Some([writer]))
    && Gapless(c)
  }

  /** The chunk became active, and was sealed later. */
  predicate Lives(lc: Lifecycles, c: Chunk) {
    c.id in lc &&
    match lc[c.id]
    case Lifecycle(Some(active), Some(sealed)) => active < sealed
    case _ => false
  }

  lemma SoundMeans(lc: Lifecycles, c: Chunk)
    ensures SoundChunk(lc, c) <==> Alive(lc, c) && OneWriter(c) && Gapless(c) && lc[c.id].active.value >= 0
    ensures Lives(lc, c) <==> Alive(lc, c)
  {
    if OneWriter(c) {
      assert c.instances.value == [c.instances.value[0]];
    }
  }

  /** The order rules on chunks as they are listed: any two of one writer, not just neighbours, lie apart. */
  ghost predicate Listed(lc: Lifecycles, chunks: seq<Chunk>) {
    && (forall i :: 0 <= i < |chunks| ==> SoundChunk(lc, chunks[i]))
    && (forall i, j :: 0 <= i < j < |chunks| && SameWriter(chunks[i], chunks[j]) ==>
          Apart(lc, chunks[i], chunks[j]))
  }

  /** Reading the chunks by activation decides the order rules on the list, whatever its order. */
  lemma LifecyclesDecide(lc: Lifecycles, chunks: seq<Chunk>)
    ensures (forall i :: 0 <= i < |chunks| ==> Alive(lc, chunks[i])) && OrderAccepts(lc, ByActive(lc, chunks)) <==>
            Listed(lc, chunks)
  {
    ByActiveSorts(lc, chunks);
    hide InOrder, ByActive, OrderAccepts, Alive;
    if (forall i :: 0 <= i < |chunks| ==> Alive(lc, chunks[i])) && OrderAccepts(lc, ByActive(lc, chunks)) {
      OrderedIsListed(lc, chunks, ByActive(lc, chunks));
    }
    if Listed(lc, chunks) {
      ListedIsOrdered(lc, chunks, ByActive(lc, chunks));
    }
  }

  lemma OrderedIsListed(lc: Lifecycles, chunks: seq<Chunk>, cs: seq<Chunk>)
    requires multiset(cs) == multiset(chunks)
    requires (forall i :: 0 <= i < |chunks| ==> Alive(lc, chunks[i])) && OrderAccepts(lc, cs)
    ensures Listed(lc, chunks)
  {
    forall i | 0 <= i < |chunks| ensures SoundChunk(lc, chunks[i]) && Lives(lc, chunks[i]) {
      SoundMeans(lc, chunks[i]);
      var p := PlaceIn(chunks, cs, i);
    }
    hide SoundChunk;
    forall i, j | 0 <= i < j < |chunks| && SameWriter(chunks[i], chunks[j]) ensures Apart(lc, chunks[i], chunks[j]) {
      var p, q := BothPlaces(chunks, cs, i, j);
      if p < q {
        LaterOfWriter(lc, cs, p, q);
      } else {
        LaterOfWriter(lc, cs, q, p);
      }
    }
  }

  lemma ListedIsOrdered(lc: Lifecycles, chunks: seq<Chunk>, cs: seq<Chunk>)
    requires multiset(cs) == multiset(chunks) && InOrder(lc, cs) && Listed(lc, chunks)
    ensures (forall i :: 0 <= i < |chunks| ==> Alive(lc, chunks[i])) && OrderAccepts(lc, cs)
  {
    forall i | 0 <= i < |chunks| ensures Alive(lc, chunks[i]) {
      SoundMeans(lc, chunks[i]);
    }
    forall p | 0 <= p < |cs| ensures SoundChunk(lc, cs[p]) && OneWriter(cs[p]) && Gapless(cs[p]) && Alive(lc, cs[p]) {
      SoundMeans(lc, cs[p]);
      var i := PlaceIn(cs, chunks, p);
    }
    forall p, q | 0 <= p < q < |cs| && OwnerOf(cs[p]) == OwnerOf(cs[q]) ensures Sealed(lc, cs[p]) < Active(lc, cs[q]) {
      var i, j := BothPlaces(cs, chunks, p, q);
      assert SoundChunk(lc, cs[p]) && SoundChunk(lc, cs[q]);
      OwnersAreWriters(cs[p], cs[q]);
      if i < j {
        assert Apart(lc, chunks[i], chunks[j]);
      } else {
        assert Apart(lc, chunks[j], chunks[i]);
      }
      assert Active(lc, cs[p]) <= Active(lc, cs[q]);
    }
  }

  lemma LaterOfWriter(lc: Lifecycles, cs: seq<Chunk>, p: nat, q: nat)
    requires OrderAccepts(lc, cs) && p < q < |cs| && SameWriter(cs[p], cs[q])
    requires Alive(lc, cs[p]) && Alive(lc, cs[q])
    ensures lc[cs[p].id].sealed.value < lc[cs[q].id].active.value
  {
    OwnersAreWriters(cs[p], cs[q]);
    assert Sealed(lc, cs[p]) < Active(lc, cs[q]);
  }

  lemma PlaceIn(chunks: seq<Chunk>, cs: seq<Chunk>, i: nat) returns (p: nat)
    requires multiset(cs) == multiset(chunks) && i < |chunks|
    ensures p < |cs| && cs[p] == chunks[i]
  {
    assert chunks[i] in multiset(chunks);
    assert chunks[i] in cs;
    p :| 0 <= p < |cs| && cs[p] == chunks[i];
  }

  /** Two entries of a list keep two different places in any rearrangement of it. */
  lemma BothPlaces(chunks: seq<Chunk>, cs: seq<Chunk>, i: nat, j: nat) returns (p: nat, q: nat)
    requires multiset(cs) == multiset(chunks) && i < j < |chunks|
    ensures p < |cs| && q < |cs| && p != q && cs[p] == chunks[i] && cs[q] == chunks[j]
  {
    if chunks[i] == chunks[j] {
      TwiceIn(chunks, i, j);
      p, q := TwoPlaces(cs, chunks[i]);
    } else {
      assert chunks[i] in multiset(chunks) && chunks[j] in multiset(chunks);
      p :| 0 <= p < |cs| && cs[p] == chunks[i];
      q :| 0 <= q < |cs| && cs[q] == chunks[j];
    }
  }

  lemma TwiceIn(s: seq<Chunk>, i: nat, j: nat)
    requires i < j < |s| && s[i] == s[j]
    ensures multiset(s)[s[i]] >= 2
  {
    assert s == s[..j] + [s[j]] + s[j + 1..];
    assert s[..j][i] in multiset(s[..j]);
  }

  lemma {:induction false} TwoPlaces(s: seq<Chunk>, x: Chunk) returns (p: nat, q: nat)
    requires multiset(s)[x] >= 2
    ensures p < q < |s| && s[p] == x && s[q] == x
  {
    var n := |s| - 1;
    assert s == s[..n] + [s[n]];
    if s[n] == x {
      assert x in multiset(s[..n]);
      q := n;
      p :| 0 <= p < n && s[..n][p] == x;
    } else {
      p, q := TwoPlaces(s[..n], x);
    }
  }

  // ---------------------------------------------------------------- what acceptance says of single records

  /** Where the records of a chunk lie among all records on disk. */
  lemma {:induction false} FlatAt(cs: seq<Chunk>, i: nat, r: nat)
    requires i < |cs| && r < |cs[i].records|
    ensures |Flat(cs[..i])| + r < |Flat(cs)|
    ensures Flat(cs)[|Flat(cs[..i])| + r] == Item(Label(cs[i]), OwnerOf(cs[i]), cs[i].records[r])
    ensures |Flat(cs[..i])| + |cs[i].records| <= |Flat(cs)|
  {
    hide Label, OwnerOf;
    var n := |cs| - 1;
    if i < n {
      FlatAt(cs[..n], i, r);
      assert cs[..n][..i] == cs[..i];
    }
  }

  lemma {:induction false} LaterInFlat(cs: seq<Chunk>, i: nat, j: nat)
    requires i < j <= |cs|
    ensures |Flat(cs[..i])| + |cs[i].records| <= |Flat(cs[..j])|
  {
    assert cs[..j][..j - 1] == cs[..j - 1];
    if i < j - 1 {
      LaterInFlat(cs, i, j - 1);
    }
  }

  /** Behind every record on disk is a record of a chunk. */
  lemma {:induction false} FlatFrom(cs: seq<Chunk>, p: nat) returns (i: nat, r: nat)
    requires p < |Flat(cs)|
    ensures i < |cs| && r < |cs[i].records| && Flat(cs)[p].record == cs[i].records[r]
  {
    var n := |cs| - 1;
    if p < |Flat(cs[..n])| {
      i, r := FlatFrom(cs[..n], p);
    } else {
      i, r := n, p - |Flat(cs[..n])|;
    }
  }

  lemma {:induction false} FlagsMean(items: seq<Item>, flag: string)
    ensures Flags(items)[flag] == 0 <==> forall p :: 0 <= p < |items| ==> flag !in items[p].record.flags
  {
    if items != [] {
      FlagsMean(items[..|items| - 1], flag);
    }
  }

  /** The flag test accepts exactly when no record of any chunk is flagged as malformed. */
  lemma MalformedDecides(lc: Lifecycles, chunks: seq<Chunk>)
    ensures Flags(Flat(ByActive(lc, chunks)))["malformed"] == 0 <==>
            forall i, r :: 0 <= i < |chunks| && 0 <= r < |chunks[i].records| ==>
              "malformed" !in chunks[i].records[r].flags
  {
    var cs := ByActive(lc, chunks);
    ByActiveSorts(lc, chunks);
    FlagsMean(Flat(cs), "malformed");
    hide Flat, ByActive, InOrder, Flags;
    if Flags(Flat(cs))["malformed"] == 0 {
      forall i, r | 0 <= i < |chunks| && 0 <= r < |chunks[i].records|
        ensures "malformed" !in chunks[i].records[r].flags
      {
        var p := PlaceIn(chunks, cs, i);
        FlatAt(cs, p, r);
      }
    }
    if forall i, r :: 0 <= i < |chunks| && 0 <= r < |chunks[i].records| ==>
         "malformed" !in chunks[i].records[r].flags {
      forall p | 0 <= p < |Flat(cs)| ensures "malformed" !in Flat(cs)[p].record.flags {
        var q, r := FlatFrom(cs, p);
        var i := PlaceIn(cs, chunks, q);
      }
    }
  }

  /** A label is counted once for each of its payloads. */
  lemma {:induction false} LabelsCountPayloads(items: seq<Item>, name: string)
    ensures Labels(items)[name] == |Payloads(items, name)|
  {
    if items != [] {
      LabelsCountPayloads(items[..|items| - 1], name);
    }
  }

  /**
   * On an accepted disk receive times never run back along a connection of one writer: not within a chunk, and not
   * from a chunk to one that became active after it was sealed.
   */
  lemma AcceptedReceiveTimes(lc: Lifecycles, chunks: seq<Chunk>, expected: map<string, Fed>, i: nat, r: nat, j: nat,
                             s: nat)
    requires Accepts(lc, chunks, expected)
    requires i < |chunks| && r < |chunks[i].records| && j < |chunks| && s < |chunks[j].records|
    requires SameWriter(chunks[i], chunks[j]) && chunks[i].records[r].connection == chunks[j].records[s].connection
    requires (i == j && r < s) || (Apart(lc, chunks[i], chunks[j]) &&
                                   lc[chunks[i].id].sealed.value < lc[chunks[j].id].active.value)
    ensures chunks[i].records[r].receiveNs <= chunks[j].records[s].receiveNs
  {
    var cs := ByActive(lc, chunks);
    ByActiveSorts(lc, chunks);
    hide ByActive, ReceiveOrdered;
    var p := PlaceIn(chunks, cs, i);
    var q := PlaceIn(chunks, cs, j);
    assert Alive(lc, chunks[i]) && Alive(lc, chunks[j]) && OneWriter(cs[p]) && OneWriter(cs[q]);
    OwnersAreWriters(cs[p], cs[q]);
    assert i != j ==> p < q;
    assert ReceiveOrdered(Flat(cs));
    hide Accepts, Alive, Active, InOrder, OneWriter, OrderAccepts, ContentAccepts, Flat, OwnerOf;
    RecordsInOrder(cs, p, r, if i == j then p else q, s);
  }

  lemma RecordsInOrder(cs: seq<Chunk>, p: nat, r: nat, q: nat, s: nat)
    requires ReceiveOrdered(Flat(cs)) && p < |cs| && r < |cs[p].records| && q < |cs| && s < |cs[q].records|
    requires p < q || (p == q && r < s)
    requires OwnerOf(cs[p]) == OwnerOf(cs[q]) && cs[p].records[r].connection == cs[q].records[s].connection
    ensures cs[p].records[r].receiveNs <= cs[q].records[s].receiveNs
  {
    FlatAt(cs, p, r);
    FlatAt(cs, q, s);
    if p < q {
      LaterInFlat(cs, p, q);
    }
    hide Flat, OwnerOf, Label;
    assert SameConnection(Flat(cs)[|Flat(cs[..p])| + r], Flat(cs)[|Flat(cs[..q])| + s]);
  }

  // ---------------------------------------------------------------- running state of the audit

  /** Latest seal of each owner. */
  ghost predicate Seals(lc: Lifecycles, cs: seq<Chunk>, prior: map<Owner, int>) {
    && (forall i :: 0 <= i < |cs| ==> OwnerOf(cs[i]) in prior && Sealed(lc, cs[i]) <= prior[OwnerOf(cs[i])])
    && (forall o :: o in prior ==> exists i :: 0 <= i < |cs| && OwnerOf(cs[i]) == o && Sealed(lc, cs[i]) == prior[o])
  }

  ghost predicate Living(lc: Lifecycles, cs: seq<Chunk>) {
    forall i :: 0 <= i < |cs| ==> Active(lc, cs[i]) < Sealed(lc, cs[i])
  }

  lemma LivingPrefix(lc: Lifecycles, cs: seq<Chunk>, k: nat)
    requires Living(lc, cs) && k < |cs|
    ensures Living(lc, cs[..k]) && Active(lc, cs[k]) < Sealed(lc, cs[k])
  {
  }

  /** Comparing with the owner's latest seal is enough to keep all its lifecycles apart. */
  lemma SealDecides(lc: Lifecycles, cs: seq<Chunk>, prior: map<Owner, int>, c: Chunk)
    requires Seals(lc, cs, prior) && Sequential(lc, cs)
    requires Living(lc, cs)
    ensures Sequential(lc, cs + [c]) <==> Active(lc, c) > if OwnerOf(c) in prior then prior[OwnerOf(c)] else -1
  {
    NextInSequence(lc, cs, c);
    hide Active, Sealed, OwnerOf, Sequential;
    var o := OwnerOf(c);
    if o in prior {
      var last :| 0 <= last < |cs| && OwnerOf(cs[last]) == o && Sealed(lc, cs[last]) == prior[o];
      FirstIsActive(lc, cs, last);
    }
  }

  /** A chunk extends a sequence exactly when it starts after every chunk of its owner has been sealed. */
  lemma NextInSequence(lc: Lifecycles, cs: seq<Chunk>, c: Chunk)
    requires Sequential(lc, cs)
    ensures Sequential(lc, cs + [c]) <==>
            && Active(lc, c) >= 0
            && forall i :: 0 <= i < |cs| && OwnerOf(cs[i]) == OwnerOf(c) ==> Sealed(lc, cs[i]) < Active(lc, c)
  {
    hide Active, Sealed, OwnerOf;
    var all, n := cs + [c], |cs|;
    assert all[n] == c && forall i :: 0 <= i < n ==> all[i] == cs[i];
    if Sequential(lc, all) {
      forall i | 0 <= i < n && OwnerOf(cs[i]) == OwnerOf(c) ensures Sealed(lc, cs[i]) < Active(lc, c) {
        assert Sealed(lc, all[i]) < Active(lc, all[n]);
      }
    }
  }

  lemma FirstIsActive(lc: Lifecycles, cs: seq<Chunk>, i: nat)
    requires Sequential(lc, cs) && Living(lc, cs) && i < |cs|
    ensures 0 <= Active(lc, cs[i]) < Sealed(lc, cs[i])
  {
  }

  lemma SealsGrow(lc: Lifecycles, cs: seq<Chunk>, prior: map<Owner, int>, c: Chunk)
    requires Seals(lc, cs, prior)
    requires OwnerOf(c) in prior ==> prior[OwnerOf(c)] <= Sealed(lc, c)
    ensures Seals(lc, cs + [c], prior[OwnerOf(c) := Sealed(lc, c)])
  {
    hide Active, Sealed, OwnerOf;
    var o, all, n := OwnerOf(c), cs + [c], |cs|;
    var next := prior[o := Sealed(lc, c)];
    assert all[n] == c && forall i :: 0 <= i < n ==> all[i] == cs[i];
    forall p | p in next
      ensures exists i :: 0 <= i < |all| && OwnerOf(all[i]) == p && Sealed(lc, all[i]) == next[p]
    {
      if p == o {
        assert OwnerOf(all[n]) == p;
      } else {
        var i :| 0 <= i < n && OwnerOf(cs[i]) == p && Sealed(lc, cs[i]) == prior[p];
        assert OwnerOf(all[i]) == p;
      }
    }
  }

  type Connections = map<(Owner, string), int>

  /** Latest receive time of each connection. */
  ghost predicate Receives(items: seq<Item>, prior: Connections) {
    && (forall i :: 0 <= i < |items| ==>
          Connection(items[i]) in prior && items[i].record.receiveNs <= prior[Connection(items[i])])
    && (forall c :: c in prior ==>
          exists i :: 0 <= i < |items| && Connection(items[i]) == c && items[i].record.receiveNs == prior[c])
  }

  /** Comparing with the connection's latest receive time is enough to keep all its records in order. */
  lemma ReceiveDecides(items: seq<Item>, prior: Connections, item: Item)
    requires Receives(items, prior) && ReceiveOrdered(items)
    ensures ReceiveOrdered(items + [item]) <==>
            (Connection(item) in prior ==> prior[Connection(item)] <= item.record.receiveNs)
  {
    var c, all, n := Connection(item), items + [item], |items|;
    assert all[n] == item && forall i :: 0 <= i < n ==> all[i] == items[i];
    if c in prior {
      var last :| 0 <= last < n && Connection(items[last]) == c && items[last].record.receiveNs == prior[c];
      assert SameConnection(all[last], all[n]);
    }
    if c in prior ==> prior[c] <= item.record.receiveNs {
      forall i, j | 0 <= i < j < |all| && SameConnection(all[i], all[j])
        ensures all[i].record.receiveNs <= all[j].record.receiveNs
      {
        assert j < n ==> SameConnection(items[i], items[j]);
      }
    }
  }

  lemma ReceivesGrow(items: seq<Item>, prior: Connections, item: Item)
    requires Receives(items, prior)
    requires Connection(item) in prior ==> prior[Connection(item)] <= item.record.receiveNs
    ensures Receives(items + [item], prior[Connection(item) := item.record.receiveNs])
  {
    hide Connection;
    var c, all, n := Connection(item), items + [item], |items|;
    var next := prior[c := item.record.receiveNs];
    assert all[n] == item && forall i :: 0 <= i < n ==> all[i] == items[i];
    forall d | d in next
      ensures exists i :: 0 <= i < |all| && Connection(all[i]) == d && all[i].record.receiveNs == next[d]
    {
      if d == c {
        assert Connection(all[n]) == d;
      } else {
        var i :| 0 <= i < n && Connection(items[i]) == d && items[i].record.receiveNs == prior[d];
        assert Connection(all[i]) == d;
      }
    }
  }

  /** What has been fed so far for each expected label that occurred. */
  ghost predicate Feeds(items: seq<Item>, expected: map<string, Fed>, actual: map<string, Fed>) {
    && actual.Keys <= expected.Keys
    && (forall name :: name in expected ==>
          if name in actual then SameAsFed(Payloads(items, name), actual[name])
          else Payloads(items, name) == [])
  }

  lemma PayloadsGrow(items: seq<Item>, item: Item, name: string)
    ensures Payloads(items + [item], name) ==
            if item.name == name then Payloads(items, name) + [item.record.payload] else Payloads(items, name)
  {
    assert (items + [item])[..|items|] == items;
  }

  lemma FedGrows(before: seq<seq<Byte>>, was: Fed, payload: seq<Byte>)
    requires SameAsFed(before, was) || (before == [] && was == Fed(0, []))
    requires |payload| < LENGTH_LIMIT
    ensures SameAsFed(before + [payload], Fed(was.frames + 1, was.bytes + Frame(payload)))
  {
    hide Frame;
    var after := before + [payload];
    assert after[..|before|] == before && after[|before|] == payload;
    assert Short(before) && Framed(before) == was.bytes;
    assert forall i :: 0 <= i < |before| ==> after[i] == before[i];
    assert Framed(after) == Framed(before) + Frame(payload);
  }

  lemma FeedsGrow(items: seq<Item>, expected: map<string, Fed>, actual: map<string, Fed>, item: Item)
    requires Feeds(items, expected, actual)
    ensures item.name !in expected ==> Feeds(items + [item], expected, actual)
    ensures item.name in expected && |item.record.payload| < LENGTH_LIMIT ==>
              Feeds(items + [item], expected, NextActual(actual, item))
  {
    hide Payloads, SameAsFed;
    forall name | name in expected
      ensures Payloads(items + [item], name) ==
              if item.name == name then Payloads(items, name) + [item.record.payload] else Payloads(items, name)
    {
      PayloadsGrow(items, item, name);
    }
    if item.name in expected && |item.record.payload| < LENGTH_LIMIT {
      var was := if item.name in actual then actual[item.name] else Fed(0, []);
      FedGrows(Payloads(items, item.name), was, item.record.payload);
    }
  }

  function NextActual(actual: map<string, Fed>, item: Item): map<string, Fed>
    requires |item.record.payload| < LENGTH_LIMIT
  {
    var was := if item.name in actual then actual[item.name] else Fed(0, []);
    actual[item.name := Fed(was.frames + 1, was.bytes + Frame(item.record.payload))]
  }

  lemma FlatGrows(cs: seq<Chunk>, k: nat)
    requires k < |cs|
    ensures Flat(cs[..k + 1]) == Flat(cs[..k]) + Items(cs[k])
  {
    assert cs[..k + 1][..k] == cs[..k];
  }

  lemma {:induction false} FlatPrefix(cs: seq<Chunk>, k: nat)
    requires k <= |cs|
    ensures Flat(cs[..k]) <= Flat(cs)
    decreases |cs| - k
  {
    if k == |cs| {
      assert cs[..k] == cs;
    } else {
      FlatPrefix(cs, k + 1);
      FlatGrows(cs, k);
    }
  }

  /** A record that breaks the content rules breaks them for the whole disk. */
  lemma BadRecordRejects(cs: seq<Chunk>, k: nat, r: nat, expected: map<string, Fed>)
    requires k < |cs| && r < |cs[k].records|
    requires var items := Flat(cs[..k]) + Items(cs[k])[..r + 1]; !ReceiveOrdered(items) || !Sized(items, expected)
    ensures !ContentAccepts(Flat(cs), expected)
  {
    hide Payloads, Flags;
    var items := Flat(cs[..k]) + Items(cs[k])[..r + 1];
    FlatPrefix(cs, k + 1);
    FlatGrows(cs, k);
    assert items <= Flat(cs);
    assert forall i :: 0 <= i < |items| ==> items[i] == Flat(cs)[i];
  }

  /** The inner loop's books on the records read so far. */
  ghost predicate Books(items: seq<Item>, expected: map<string, Fed>, prior: Connections, actual: map<string, Fed>,
                        flags: multiset<string>, counts: multiset<string>) {
    && ReceiveOrdered(items) && Receives(items, prior)
    && Sized(items, expected) && Feeds(items, expected, actual)
    && flags == Flags(items) && counts == Labels(items)
  }

  lemma BooksGrow(items: seq<Item>, expected: map<string, Fed>, prior: Connections, actual: map<string, Fed>,
                  flags: multiset<string>, counts: multiset<string>, item: Item)
    requires Books(items, expected, prior, actual, flags, counts)
    ensures Connection(item) in prior && item.record.receiveNs < prior[Connection(item)] ==>
              !ReceiveOrdered(items + [item])
    ensures item.name in expected && |item.record.payload| >= LENGTH_LIMIT ==> !Sized(items + [item], expected)
    ensures (Connection(item) in prior ==> prior[Connection(item)] <= item.record.receiveNs) &&
            (item.name in expected ==> |item.record.payload| < LENGTH_LIMIT) ==>
              Books(items + [item], expected, prior[Connection(item) := item.record.receiveNs],
                    if item.name in expected then NextActual(actual, item) else actual,
                    flags + multiset(item.record.flags), counts + multiset{item.name})
  {
    hide ReceiveOrdered, Receives, Feeds, Flags, Labels, NextActual;
    ReceiveDecides(items, prior, item);
    if Connection(item) in prior ==> prior[Connection(item)] <= item.record.receiveNs {
      ReceivesGrow(items, prior, item);
    }
    FeedsGrow(items, expected, actual, item);
    CountsGrow(items, item);
    assert (items + [item])[|items|] == item;
  }

  // ---------------------------------------------------------------- the audit

  ghost predicate ReportsTruly(lc: Lifecycles, cs: seq<Chunk>, expected: map<string, Fed>, r: AuditReport) {
    && r.actual == expected
    && r.flags == Flags(Flat(cs))
    && r.counts == Labels(Flat(cs))
    && Proof(lc, cs, r.evidence)
  }

  method VerifyPhysicalRecords(lc: Lifecycles, chunks: seq<Chunk>, expected: map<string, Fed>)
    returns (result: Result<AuditReport, AuditError>)
    ensures result.Success? <==> Accepts(lc, chunks, expected)
    ensures result.Success? ==> ReportsTruly(lc, ByActive(lc, chunks), expected, result.value)
  {
    hide Books, Seals, Sequential, Alive, Living, Active, Sealed, Gapless, OwnerOf, Label, ReportsTruly, ByActive;
    hide Accepts, OrderAccepts, ContentAccepts, Proof;
    for i := 0 to |chunks|
      invariant forall j :: 0 <= j < i ==> Alive(lc, chunks[j])
    {
      if !Alive(lc, chunks[i]) {
        DeadRejects(lc, chunks, expected, i);
        return Failure(InvalidLifecycle(chunks[i].id));
      }
    }
    var ordered := ByActive(lc, chunks);
    OrderedAlive(lc, chunks);
    var priorSeal: map<Owner, int> := map[];
    var priorReceive: Connections := map[];
    var actual: map<string, Fed> := map[];
    var flags: multiset<string>, counts: multiset<string> := multiset{}, multiset{};
    var evidence: seq<Evidence> := [];
    ghost var items: seq<Item> := [];
    EmptyBooks(lc, expected);
    assert Proof(lc, [], []) by { NoProof(lc); }
    var k := 0;
    while k < |ordered|
      invariant 0 <= k <= |ordered|
      invariant items == Flat(ordered[..k]) && Books(items, expected, priorReceive, actual, flags, counts)
      invariant Sequential(lc, ordered[..k]) && Seals(lc, ordered[..k], priorSeal)
      invariant forall i :: 0 <= i < k ==> OneWriter(ordered[i]) && Gapless(ordered[i])
      invariant Proof(lc, ordered[..k], evidence)
    {
      var chunk := ordered[k];
      if !OneWriter(chunk) {
        ChunkRejects(lc, chunks, expected, k);
        return Failure(SeveralWriters);
      }
      var owner, name := OwnerOf(chunk), Label(chunk);
      var active, sealed := Active(lc, chunk), Sealed(lc, chunk);
      LivingPrefix(lc, ordered, k);
      SealDecides(lc, ordered[..k], priorSeal, chunk);
      assert ordered[..k + 1] == ordered[..k] + [chunk];
      if active <= if owner in priorSeal then priorSeal[owner] else -1 {
        ChunkRejects(lc, chunks, expected, k);
        return Failure(OverlappingLifecycles(owner));
      }
      SealsGrow(lc, ordered[..k], priorSeal, chunk);
      priorSeal := priorSeal[owner := sealed];
      var r := 0;
      while r < |chunk.records|
        invariant 0 <= r <= |chunk.records|
        invariant items == Flat(ordered[..k]) + Items(chunk)[..r]
        invariant Books(items, expected, priorReceive, actual, flags, counts)
        invariant forall i :: 0 <= i < r ==> chunk.records[i].ordinal == i
      {
        var record := chunk.records[r];
        if record.ordinal != r {
          GaplessMeans(chunk);
          ChunkRejects(lc, chunks, expected, k);
          return Failure(OrdinalDiscontinuity);
        }
        ghost var item := Items(chunk)[r];
        assert items + [item] == Flat(ordered[..k]) + Items(chunk)[..r + 1];
        BooksGrow(items, expected, priorReceive, actual, flags, counts, item);
        counts := counts + multiset{name};
        flags := flags + multiset(record.flags);
        var connection := (owner, record.connection);
        if connection in priorReceive && record.receiveNs < priorReceive[connection] {
          BadRecordRejects(ordered, k, r, expected);
          ContentDecides(lc, chunks, expected);
          return Failure(ReceiveInversion(chunk.id, record.ordinal));
        }
        priorReceive := priorReceive[connection := record.receiveNs];
        if name in expected {
          if |record.payload| >= LENGTH_LIMIT {
            BadRecordRejects(ordered, k, r, expected);
            ContentDecides(lc, chunks, expected);
            return Failure(PayloadTooLong);
          }
          var was := if name in actual then actual[name] else Fed(0, []);
          actual := actual[name := Fed(was.frames + 1, was.bytes + Frame(record.payload))];
        }
        items := items + [item];
        r := r + 1;
      }
      assert Items(chunk)[..r] == Items(chunk);
      FlatGrows(ordered, k);
      GaplessMeans(chunk);
      if r != chunk.recordCount {
        ChunkRejects(lc, chunks, expected, k);
        return Failure(CountDiffers);
      }
      ProofGrows(lc, ordered[..k], evidence, chunk);
      evidence := evidence + [Evidence(chunk.id, active, sealed, r)];
      k := k + 1;
    }
    assert ordered[..k] == ordered;
    BooksDecide(items, expected, priorReceive, actual, flags, counts);
    assert OrderAccepts(lc, ordered) by { OrderMeans(lc, ordered); }
    ContentDecides(lc, chunks, expected);
    if actual != expected || flags["malformed"] > 0 {
      return Failure(InputDiffers);
    }
    result := Success(AuditReport(actual, flags, counts, evidence));
    BooksReport(lc, ordered, expected, priorReceive, result.value);
  }

  ghost predicate Proof(lc: Lifecycles, cs: seq<Chunk>, evidence: seq<Evidence>) {
    && |evidence| == |cs|
    && (forall i :: 0 <= i < |cs| ==>
          evidence[i] == Evidence(cs[i].id, Active(lc, cs[i]), Sealed(lc, cs[i]), |cs[i].records|))
  }

  lemma NoProof(lc: Lifecycles)
    ensures Proof(lc, [], [])
  {
  }

  lemma ProofGrows(lc: Lifecycles, cs: seq<Chunk>, evidence: seq<Evidence>, c: Chunk)
    requires Proof(lc, cs, evidence)
    ensures Proof(lc, cs + [c], evidence + [Evidence(c.id, Active(lc, c), Sealed(lc, c), |c.records|)])
  {
    hide Active, Sealed;
  }

  lemma DeadRejects(lc: Lifecycles, chunks: seq<Chunk>, expected: map<string, Fed>, i: nat)
    requires i < |chunks| && !Alive(lc, chunks[i])
    ensures !Accepts(lc, chunks, expected)
  {
  }

  lemma ChunkRejects(lc: Lifecycles, chunks: seq<Chunk>, expected: map<string, Fed>, k: nat)
    requires
      var cs := ByActive(lc, chunks);
      k < |cs| && !(OneWriter(cs[k]) && Gapless(cs[k]) && Sequential(lc, cs[..k + 1]))
    ensures !Accepts(lc, chunks, expected)
  {
    hide Gapless, Sequential, OneWriter;
    SequentialPrefix(lc, ByActive(lc, chunks), k + 1);
  }

  lemma ContentDecides(lc: Lifecycles, chunks: seq<Chunk>, expected: map<string, Fed>)
    ensures !ContentAccepts(Flat(ByActive(lc, chunks)), expected) ==> !Accepts(lc, chunks, expected)
    ensures OrderAccepts(lc, ByActive(lc, chunks)) && (forall i :: 0 <= i < |chunks| ==> Alive(lc, chunks[i])) ==>
              (Accepts(lc, chunks, expected) <==> ContentAccepts(Flat(ByActive(lc, chunks)), expected))
  {
  }

  lemma OrderMeans(lc: Lifecycles, cs: seq<Chunk>)
    ensures OrderAccepts(lc, cs) <==>
            (forall i :: 0 <= i < |cs| ==> OneWriter(cs[i]) && Gapless(cs[i])) && Sequential(lc, cs)
  {
  }

  lemma GaplessMeans(c: Chunk)
    ensures Gapless(c) <==>
            (forall r :: 0 <= r < |c.records| ==> c.records[r].ordinal == r) && |c.records| == c.recordCount
  {
  }

  lemma OrderedAlive(lc: Lifecycles, chunks: seq<Chunk>)
    requires forall i :: 0 <= i < |chunks| ==> Alive(lc, chunks[i])
    ensures Living(lc, ByActive(lc, chunks))
  {
    ByActiveSorts(lc, chunks);
    var cs := ByActive(lc, chunks);
    forall i | 0 <= i < |cs| ensures Alive(lc, cs[i]) {
      hide Alive;
      assert cs[i] in multiset(cs);
      assert cs[i] in chunks;
    }
  }

  lemma EmptyBooks(lc: Lifecycles, expected: map<string, Fed>)
    ensures Sequential(lc, []) && Seals(lc, [], map[])
    ensures Books([], expected, map[], map[], multiset{}, multiset{})
  {
  }

  lemma SequentialPrefix(lc: Lifecycles, cs: seq<Chunk>, k: nat)
    requires k <= |cs|
    ensures Sequential(lc, cs) ==> Sequential(lc, cs[..k])
  {
  }

  lemma CountsGrow(items: seq<Item>, item: Item)
    ensures Flags(items + [item]) == Flags(items) + multiset(item.record.flags)
    ensures Labels(items + [item]) == Labels(items) + multiset{item.name}
  {
    assert (items + [item])[..|items|] == items;
  }

  /** At the end, what was fed equals what was expected exactly when the content rules hold. */
  lemma BooksDecide(items: seq<Item>, expected: map<string, Fed>, prior: Connections, actual: map<string, Fed>,
                    flags: multiset<string>, counts: multiset<string>)
    requires Books(items, expected, prior, actual, flags, counts)
    ensures ContentAccepts(items, expected) <==> actual == expected && flags["malformed"] == 0
  {
    hide ReceiveOrdered, Receives, Flags, Labels, Payloads, SameAsFed;
    assert SameAsFed([], Fed(0, [])) == false by { NothingFed(); }
    if forall name :: name in expected ==> SameAsFed(Payloads(items, name), expected[name]) {
      forall name | name in expected ensures name in actual && actual[name] == expected[name] {
        assert SameAsFed(Payloads(items, name), expected[name]);
        FedUnique(Payloads(items, name), expected[name], if name in actual then actual[name] else expected[name]);
      }
      assert actual.Keys == expected.Keys;
    }
  }

  lemma NothingFed()
    ensures forall fed: Fed :: !SameAsFed([], fed)
  {
  }

  lemma FedUnique(ps: seq<seq<Byte>>, a: Fed, b: Fed)
    requires SameAsFed(ps, a)
    ensures ps != [] && (SameAsFed(ps, b) ==> a == b)
  {
  }

  lemma BooksReport(lc: Lifecycles, cs: seq<Chunk>, expected: map<string, Fed>, prior: Connections, r: AuditReport)
    requires Books(Flat(cs), expected, prior, r.actual, r.flags, r.counts)
    requires r.actual == expected && Proof(lc, cs, r.evidence)
    ensures ReportsTruly(lc, cs, expected, r)
  {
  }
}
