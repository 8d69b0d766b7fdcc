/** An algebra of binary formats.
    A format pairs a reader with the grammar it is meant to accept: `encode` and `ok` are
    the grammar, `parse` is the reader.  A reader reports, on failure as on success, how
    far it moved and which callback events it raised. */
module Formats {
  import opened Bytes
  import opened Types

  datatype Parsed<+T> =
    | Good(value: T, used: nat, events: seq<Event>)
    | Bad(error: ParseError, used: nat, events: seq<Event>)

  /** `events(b, v)`: what reading the encoding of `v` at offset `b` raises. */
  datatype Format<!T> = Format(
    parse: Slice -> Parsed<T>,
    encode: T -> seq<Byte>,
    ok: T -> bool,
    events: (nat, T) -> seq<Event>)

  // ------------------------------------------------------------------ laws

  /** The bytes consumed by a success are the encoding of the value returned. */
  ghost predicate SoundAt<T>(f: Format<T>, sl: Slice) {
    var p := f.parse(sl);
    p.Good? ==>
      && p.used <= |sl.bytes| && f.ok(p.value)
      && f.encode(p.value) == sl.bytes[..p.used]
      && p.events == f.events(sl.off, p.value)
  }

  /** An encoding is read back, whatever follows it. */
  ghost predicate CompleteAt<T>(f: Format<T>, b: nat, v: T, rest: seq<Byte>) {
    f.ok(v) ==> f.parse(Slice(b, f.encode(v) + rest)) == Good(v, |f.encode(v)|, f.events(b, v))
  }

  ghost predicate Starved(e: ParseError) {
    e.UnexpectedEof? && e.needed > e.available
  }

  /** An encoding cut short starves the reader, after a prefix of its events. */
  ghost predicate CutAt<T>(f: Format<T>, b: nat, v: T, k: nat) {
    f.ok(v) && k < |f.encode(v)| ==>
      var p := f.parse(Slice(b, f.encode(v)[..k]));
      p.Bad? && Starved(p.error) && p.events <= f.events(b, v)
  }

  ghost predicate Lawful<T(!new)>(f: Format<T>) {
    && (forall sl: Slice :: SoundAt(f, sl))
    && (forall b: nat, v: T, rest: seq<Byte> :: CompleteAt(f, b, v, rest))
    && (forall b: nat, v: T, k: nat :: CutAt(f, b, v, k))
  }

  /** Two values with the same encoding, or one encoding a prefix of the other, are equal. */
  lemma PrefixFree<T(!new)>(f: Format<T>, v: T, v': T)
    requires Lawful(f) && f.ok(v) && f.ok(v')
    requires f.encode(v) <= f.encode(v')
    ensures v == v'
  {
    var rest := f.encode(v')[|f.encode(v)|..];
    assert f.encode(v) + rest == f.encode(v') + [];
    assert CompleteAt(f, 0, v, rest) && CompleteAt(f, 0, v', []);
  }

  /** The reader accepts exactly the buffers that begin with an encoding. */
  lemma AcceptsExactly<T(!new)>(f: Format<T>, sl: Slice)
    requires Lawful(f)
    ensures f.parse(sl).Good? <==> exists v :: f.ok(v) && f.encode(v) <= sl.bytes
  {
    assert SoundAt(f, sl);
    forall v | f.ok(v) && f.encode(v) <= sl.bytes
      ensures f.parse(sl).Good?
    {
      var rest := sl.bytes[|f.encode(v)|..];
      assert sl.bytes == f.encode(v) + rest;
      assert CompleteAt(f, sl.off, v, rest);
    }
  }

  /** A success depends only on the bytes it consumed. */
  lemma Locality<T(!new)>(f: Format<T>, sl: Slice, other: seq<Byte>)
    requires Lawful(f)
    requires f.parse(sl).Good? && f.parse(sl).used <= |sl.bytes| && sl.bytes[..f.parse(sl).used] <= other
    ensures f.parse(Slice(sl.off, other)) == f.parse(sl)
  {
    var p := f.parse(sl);
    assert SoundAt(f, sl);
    assert other == f.encode(p.value) + other[p.used..];
    assert sl.bytes == f.encode(p.value) + sl.bytes[p.used..];
    assert CompleteAt(f, sl.off, p.value, other[p.used..]);
    assert CompleteAt(f, sl.off, p.value, sl.bytes[p.used..]);
  }

  /** On every proper prefix of the bytes it consumed, a successful reader starves. */
  lemma Truncation<T(!new)>(f: Format<T>, sl: Slice, k: nat)
    requires Lawful(f)
    requires f.parse(sl).Good? && k < f.parse(sl).used <= |sl.bytes|
    ensures var p := f.parse(Slice(sl.off, sl.bytes[..k]));
      p.Bad? && Starved(p.error) && p.events <= f.parse(sl).events
  {
    var p := f.parse(sl);
    assert SoundAt(f, sl);
    assert CutAt(f, sl.off, p.value, k);
    assert sl.bytes[..p.used][..k] == sl.bytes[..k];
  }

  // -------------------------------------------------------------- sequences

  function BindParse<A, B>(f: Format<A>, g: A -> Format<B>, sl: Slice): Parsed<(A, B)> {
    match f.parse(sl)
    case Bad(e, u, ev) => Bad(e, u, ev)
    case Good(a, n, ev) =>
      match g(a).parse(After(sl, n))
      case Bad(e, u, ev') => Bad(e, n + u, ev + ev')
      case Good(c, m, ev') => Good((a, c), n + m, ev + ev')
  }

  /** `f`, then the format that its value chooses. */
  function Bind<A, B>(f: Format<A>, g: A -> Format<B>): Format<(A, B)> {
    Format(
      (sl: Slice) => BindParse(f, g, sl),
      (v: (A, B)) => f.encode(v.0) + g(v.0).encode(v.1),
      (v: (A, B)) => f.ok(v.0) && g(v.0).ok(v.1),
      (b: nat, v: (A, B)) => f.events(b, v.0) + g(v.0).events(b + |f.encode(v.0)|, v.1))
  }

  lemma LawfulBind<A(!new), B(!new)>(f: Format<A>, g: A -> Format<B>)
    requires Lawful(f)
    requires forall a :: f.ok(a) ==> Lawful(g(a))
    ensures Lawful(Bind(f, g))
  {
    var h := Bind(f, g);
    forall sl: Slice ensures SoundAt(h, sl) {
      var p := f.parse(sl);
      assert SoundAt(f, sl);
      if p.Good? {
        var q := g(p.value).parse(After(sl, p.used));
        assert SoundAt(g(p.value), After(sl, p.used));
        if q.Good? {
          assert sl.bytes[..p.used + q.used] == sl.bytes[..p.used] + sl.bytes[p.used..][..q.used];
        }
      }
    }
    forall b: nat, v: (A, B), rest: seq<Byte> ensures CompleteAt(h, b, v, rest) {
      if h.ok(v) {
        var x, y := f.encode(v.0), g(v.0).encode(v.1);
        assert h.encode(v) + rest == x + (y + rest);
        assert CompleteAt(f, b, v.0, y + rest);
        assert Drop(x + (y + rest), |x|) == y + rest;
        assert CompleteAt(g(v.0), b + |x|, v.1, rest);
      }
    }
    forall b: nat, v: (A, B), k: nat ensures CutAt(h, b, v, k) {
      if h.ok(v) && k < |h.encode(v)| {
        var x, y := f.encode(v.0), g(v.0).encode(v.1);
        if k < |x| {
          assert (x + y)[..k] == x[..k];
          assert CutAt(f, b, v.0, k);
        } else {
          var z := y[..k - |x|];
          assert (x + y)[..k] == x + z;
          assert CompleteAt(f, b, v.0, z);
          assert Drop(x + z, |x|) == z;
          assert CutAt(g(v.0), b + |x|, v.1, k - |x|);
        }
      }
    }
  }

  function Pair<A, B>(f: Format<A>, g: Format<B>): Format<(A, B)> {
    Bind(f, (_: A) => g)
  }

  lemma LawfulPair<A(!new), B(!new)>(f: Format<A>, g: Format<B>)
    requires Lawful(f) && Lawful(g)
    ensures Lawful(Pair(f, g))
  {
    LawfulBind(f, (_: A) => g);
  }

  lemma BindGrammar<A, B>(f: Format<A>, g: A -> Format<B>, b: nat, x: A, y: B)
    ensures var h := Bind(f, g);
      && h.encode((x, y)) == f.encode(x) + g(x).encode(y)
      && h.ok((x, y)) == (f.ok(x) && g(x).ok(y))
      && h.events(b, (x, y)) == f.events(b, x) + g(x).events(b + |f.encode(x)|, y)
  {
  }

  lemma PairGrammar<A, B>(f: Format<A>, g: Format<B>, b: nat, x: A, y: B)
    ensures var h := Pair(f, g);
      && h.encode((x, y)) == f.encode(x) + g.encode(y)
      && h.ok((x, y)) == (f.ok(x) && g.ok(y))
      && h.events(b, (x, y)) == f.events(b, x) + g.events(b + |f.encode(x)|, y)
  {
  }

  /** The reads of a sequence, one after another. */
  lemma PairReads<A, B>(f: Format<A>, g: Format<B>, sl: Slice)
    ensures var h := Pair(f, g);
      match f.parse(sl)
      case Bad(e, u, ev) => h.parse(sl) == Bad(e, u, ev)
      case Good(x, n, ev) =>
        match g.parse(After(sl, n))
        case Bad(e, u, ev') => h.parse(sl) == Bad(e, n + u, ev + ev')
        case Good(y, m, ev') => h.parse(sl) == Good((x, y), n + m, ev + ev')
  {
    assert Pair(f, g).parse(sl) == BindParse(f, (_: A) => g, sl);
  }

  // ------------------------------------------------------ changes of value

  function Silent<T>(): (nat, T) -> seq<Event> {
    (_: nat, _: T) => []
  }

  function MapParse<A, B>(f: Format<A>, to: A -> B, note: (nat, B) -> seq<Event>, sl: Slice): Parsed<B> {
    match f.parse(sl)
    case Bad(e, u, ev) => Bad(e, u, ev)
    case Good(a, n, ev) => Good(to(a), n, ev + note(sl.off, to(a)))
  }

  /** The same bytes read as another type, with `note` raised once the value is complete. */
  function Map<A, B>(f: Format<A>, to: A -> B, from: B -> A, note: (nat, B) -> seq<Event>): Format<B> {
    Format(
      (sl: Slice) => MapParse(f, to, note, sl),
      (v: B) => f.encode(from(v)),
      (v: B) => f.ok(from(v)),
      (b: nat, v: B) => f.events(b, from(v)) + note(b, v))
  }

  lemma MapGrammar<A, B>(f: Format<A>, to: A -> B, from: B -> A, b: nat, v: B)
    ensures var h := Map(f, to, from, Silent());
      h.encode(v) == f.encode(from(v)) && h.ok(v) == f.ok(from(v)) && h.events(b, v) == f.events(b, from(v))
  {
    assert f.events(b, from(v)) + [] == f.events(b, from(v));
  }

  lemma LawfulMap<A(!new), B(!new)>(f: Format<A>, to: A -> B, from: B -> A, note: (nat, B) -> seq<Event>)
    requires Lawful(f)
    requires forall a :: f.ok(a) ==> from(to(a)) == a
    requires forall v :: f.ok(from(v)) ==> to(from(v)) == v
    ensures Lawful(Map(f, to, from, note))
  {
    var h := Map(f, to, from, note);
    forall sl: Slice ensures SoundAt(h, sl) {
      assert SoundAt(f, sl);
    }
    forall b: nat, v: B, rest: seq<Byte> ensures CompleteAt(h, b, v, rest) {
      assert CompleteAt(f, b, from(v), rest);
    }
    forall b: nat, v: B, k: nat ensures CutAt(h, b, v, k) {
      assert CutAt(f, b, from(v), k);
    }
  }

  /** `f` with a check of the finished value. */
  function Checked<T>(f: Format<T>, check: T -> Option<ParseError>): Format<T> {
    Format(
      (sl: Slice) => Vetted(f.parse(sl), check),
      f.encode,
      (v: T) => f.ok(v) && check(v).None?,
      f.events)
  }

  function Vetted<T>(p: Parsed<T>, check: T -> Option<ParseError>): Parsed<T> {
    if p.Good? && check(p.value).Some? then Bad(check(p.value).value, p.used, p.events) else p
  }

  lemma LawfulChecked<T(!new)>(f: Format<T>, check: T -> Option<ParseError>)
    requires Lawful(f)
    ensures Lawful(Checked(f, check))
  {
    var h := Checked(f, check);
    forall sl: Slice ensures SoundAt(h, sl) {
      assert SoundAt(f, sl);
    }
    forall b: nat, v: T, rest: seq<Byte> ensures CompleteAt(h, b, v, rest) {
      assert CompleteAt(f, b, v, rest);
    }
    forall b: nat, v: T, k: nat ensures CutAt(h, b, v, k) {
      assert CutAt(f, b, v, k);
    }
  }

  ghost predicate SameGrammar<T>(f: Format<T>, g: Format<T>, b: nat, v: T) {
    g.ok(v) == f.ok(v) && (f.ok(v) ==> g.encode(v) == f.encode(v) && g.events(b, v) == f.events(b, v))
  }

  /** The same reader with its grammar restated by hand. */
  lemma LawfulRestated<T(!new)>(f: Format<T>, g: Format<T>)
    requires Lawful(f) && g.parse == f.parse
    requires forall b: nat, v: T :: SameGrammar(f, g, b, v)
    ensures Lawful(g)
  {
    forall sl: Slice ensures SoundAt(g, sl) {
      var p := f.parse(sl);
      assert SoundAt(f, sl);
      assert p.Good? ==> SameGrammar(f, g, sl.off, p.value);
    }
    forall b: nat, v: T, rest: seq<Byte> ensures CompleteAt(g, b, v, rest) {
      assert CompleteAt(f, b, v, rest) && SameGrammar(f, g, b, v);
    }
    forall b: nat, v: T, k: nat ensures CutAt(g, b, v, k) {
      assert CutAt(f, b, v, k) && SameGrammar(f, g, b, v);
    }
  }

  /** `f` read through a sub-cursor: a failure leaves the outer cursor where it was. */
  function Atomic<T>(f: Format<T>): Format<T> {
    f.(parse := (sl: Slice) => Rewound(f.parse(sl)))
  }

  function Rewound<T>(p: Parsed<T>): Parsed<T> {
    if p.Bad? then p.(used := 0) else p
  }

  lemma LawfulAtomic<T(!new)>(f: Format<T>)
    requires Lawful(f)
    ensures Lawful(Atomic(f))
  {
    var h := Atomic(f);
    forall sl: Slice ensures SoundAt(h, sl) {
      assert SoundAt(f, sl);
    }
    forall b: nat, v: T, rest: seq<Byte> ensures CompleteAt(h, b, v, rest) {
      assert CompleteAt(f, b, v, rest);
    }
    forall b: nat, v: T, k: nat ensures CutAt(h, b, v, k) {
      assert CutAt(f, b, v, k);
    }
  }

  // -------------------------------------------------- silent reads in a row

  ghost predicate Quiet<T>(f: Format<T>) {
    forall sl: Slice :: f.parse(sl).events == []
  }

  function Parse2<A, B, V>(
    f: Format<A>, g: Format<B>, to: ((A, B)) -> V, note: (nat, V) -> seq<Event>, sl: Slice): Parsed<V>
  {
    var x := f.parse(sl);
    if x.Bad? then Bad(x.error, x.used, []) else
      var y := g.parse(After(sl, x.used));
      if y.Bad? then Bad(y.error, x.used + y.used, []) else
        var v := to((x.value, y.value));
        Good(v, x.used + y.used, note(sl.off, v))
  }

  lemma Reads2<A, B, V>(
    f: Format<A>, g: Format<B>,
    to: ((A, B)) -> V, from: V -> (A, B), note: (nat, V) -> seq<Event>, sl: Slice)
    requires Quiet(f) && Quiet(g)
    ensures Map(Pair(f, g), to, from, note).parse(sl) == Parse2(f, g, to, note, sl)
  {
    PairReads(f, g, sl);
    var v := Parse2(f, g, to, note, sl);
    assert v.Good? ==> [] + [] + v.events == v.events;
  }

  function Parse3<A, B, C, V>(
    f: Format<A>, g: Format<B>, h: Format<C>,
    to: ((A, (B, C))) -> V, note: (nat, V) -> seq<Event>, sl: Slice): Parsed<V>
  {
    var x := f.parse(sl);
    if x.Bad? then Bad(x.error, x.used, []) else
      var y := g.parse(After(sl, x.used));
      if y.Bad? then Bad(y.error, x.used + y.used, []) else
        var z := h.parse(After(After(sl, x.used), y.used));
        if z.Bad? then Bad(z.error, x.used + y.used + z.used, []) else
          var v := to((x.value, (y.value, z.value)));
          Good(v, x.used + y.used + z.used, note(sl.off, v))
  }

  lemma Reads3<A, B, C, V>(
    f: Format<A>, g: Format<B>, h: Format<C>,
    to: ((A, (B, C))) -> V, from: V -> (A, (B, C)), note: (nat, V) -> seq<Event>, sl: Slice)
    requires Quiet(f) && Quiet(g) && Quiet(h)
    ensures Map(Pair(f, Pair(g, h)), to, from, note).parse(sl) == Parse3(f, g, h, to, note, sl)
  {
    var x := f.parse(sl);
    PairReads(f, Pair(g, h), sl);
    if x.Good? {
      PairReads(g, h, After(sl, x.used));
    }
    var v := Parse3(f, g, h, to, note, sl);
    assert v.Good? ==> [] + ([] + []) + v.events == v.events;
  }

  // ------------------------------------------------------------------ lists

  /** What a loop over a format did: the complete items, the distance moved, the events, and the error if any. */
  datatype Run<+T> = Run(items: seq<T>, used: nat, events: seq<Event>, error: Option<ParseError>)

  function Join<T>(x: Run<T>, y: Run<T>): Run<T> {
    Run(x.items + y.items, x.used + y.used, x.events + y.events, y.error)
  }

  /** One turn of a loop body. */
  function Turn<T>(p: Parsed<T>): Run<T> {
    match p
    case Bad(e, u, ev) => Run([], u, ev, Some(e))
    case Good(v, n, ev) => Run([v], n, ev, None)
  }

  /** `for _ in 0..n { f? }` */
  function ManyRun<T>(f: Format<T>, n: nat, sl: Slice): Run<T> {
    if n == 0 then Run([], 0, [], None) else
      var t := Turn(f.parse(sl));
      if t.error.Some? then t else Join(t, ManyRun(f, n - 1, After(sl, t.used)))
  }

  function EncodeAll<T>(encode: T -> seq<Byte>, items: seq<T>): seq<Byte>
    decreases items
  {
    if items == [] then [] else encode(items[0]) + EncodeAll(encode, items[1..])
  }

  function EventsOfAll<T>(f: Format<T>, b: nat, items: seq<T>): seq<Event>
    decreases items
  {
    if items == [] then [] else f.events(b, items[0]) + EventsOfAll(f, b + |f.encode(items[0])|, items[1..])
  }

  predicate AllOk<T>(ok: T -> bool, items: seq<T>) {
    forall i :: 0 <= i < |items| ==> ok(items[i])
  }

  lemma {:induction false} EncodeSnoc<T>(encode: T -> seq<Byte>, items: seq<T>, v: T)
    ensures EncodeAll(encode, items + [v]) == EncodeAll(encode, items) + encode(v)
  {
    if items == [] {
      assert [] + [v] == [v] && [v][1..] == [];
    } else {
      assert (items + [v])[1..] == items[1..] + [v];
      EncodeSnoc(encode, items[1..], v);
    }
  }

  /** What `view` makes of items written one after another from offset `b`. */
  function Located<T, V>(encode: T -> seq<Byte>, view: (nat, T) -> V, b: nat, items: seq<T>): (r: seq<V>)
    ensures |r| == |items|
    decreases items
  {
    if items == [] then [] else [view(b, items[0])] + Located(encode, view, b + |encode(items[0])|, items[1..])
  }

  lemma LocatedFirst<T, V>(encode: T -> seq<Byte>, view: (nat, T) -> V, b: nat, items: seq<T>)
    requires items != []
    ensures var x, rest := encode(items[0]), items[1..];
      && EncodeAll(encode, items) == x + EncodeAll(encode, rest)
      && Located(encode, view, b, items) == [view(b, items[0])] + Located(encode, view, b + |x|, rest)
  {
  }

  lemma {:induction false} LocatedSnoc<T, V>(encode: T -> seq<Byte>, view: (nat, T) -> V, b: nat, items: seq<T>, v: T)
    ensures Located(encode, view, b, items + [v])
         == Located(encode, view, b, items) + [view(b + |EncodeAll(encode, items)|, v)]
    decreases items
  {
    if items == [] {
      assert [] + [v] == [v] && [v][1..] == [];
    } else {
      assert (items + [v])[1..] == items[1..] + [v];
      LocatedSnoc(encode, view, b + |encode(items[0])|, items[1..], v);
    }
  }

  lemma ConsAll<T>(f: Format<T>, b: nat, v: T, items: seq<T>)
    ensures EncodeAll(f.encode, [v] + items) == f.encode(v) + EncodeAll(f.encode, items)
    ensures EventsOfAll(f, b, [v] + items) == f.events(b, v) + EventsOfAll(f, b + |f.encode(v)|, items)
    ensures AllOk(f.ok, [v] + items) <==> f.ok(v) && AllOk(f.ok, items)
  {
    assert ([v] + items)[1..] == items;
    if AllOk(f.ok, [v] + items) {
      assert forall i :: 0 <= i < |items| ==> items[i] == ([v] + items)[i + 1];
    }
  }

  function OfRun<T>(r: Run<T>): Parsed<seq<T>> {
    if r.error.Some? then Bad(r.error.value, r.used, r.events) else Good(r.items, r.used, r.events)
  }

  function Many<T>(f: Format<T>, n: nat): Format<seq<T>> {
    Format(
      (sl: Slice) => OfRun(ManyRun(f, n, sl)),
      (items: seq<T>) => EncodeAll(f.encode, items),
      (items: seq<T>) => |items| == n && AllOk(f.ok, items),
      (b: nat, items: seq<T>) => EventsOfAll(f, b, items))
  }

  lemma ManyGrammar<T>(f: Format<T>, n: nat, b: nat, items: seq<T>)
    ensures var h := Many(f, n);
      && h.encode(items) == EncodeAll(f.encode, items)
      && h.ok(items) == (|items| == n && AllOk(f.ok, items))
      && h.events(b, items) == EventsOfAll(f, b, items)
  {
  }

  lemma PrependPrefix(s: seq<Byte>, n: nat, x: seq<Byte>)
    requires n <= |s|
    ensures x <= s[n..] ==> s[..n] + x <= s
    ensures s[..n] + x == s <==> x == s[n..]
  {
    assert s == s[..n] + s[n..];
    if s[..n] + x == s {
      assert (s[..n] + x)[n..] == x;
    }
  }

  ghost predicate ReadFromFront<T>(f: Format<T>, n: nat, sl: Slice, r: Run<T>) {
    && |r.items| <= n && AllOk(f.ok, r.items)
    && EncodeAll(f.encode, r.items) <= sl.bytes
    && EventsOfAll(f, sl.off, r.items) <= r.events
    && (r.error.None? ==>
          |r.items| == n && r.used == |EncodeAll(f.encode, r.items)| && r.events == EventsOfAll(f, sl.off, r.items))
  }

  /** Failing or not, a counted loop's complete items are read from the front of the input. */
  lemma {:induction false} ManySound<T(!new)>(f: Format<T>, n: nat, sl: Slice)
    requires Lawful(f)
    ensures ReadFromFront(f, n, sl, ManyRun(f, n, sl))
  {
    if n > 0 {
      var p := f.parse(sl);
      assert SoundAt(f, sl);
      if p.Good? {
        ManySound(f, n - 1, After(sl, p.used));
        FrontCons(f, n, sl, ManyRun(f, n - 1, After(sl, p.used)));
      }
    }
  }

  lemma FrontCons<T(!new)>(f: Format<T>, n: nat, sl: Slice, r: Run<T>)
    requires SoundAt(f, sl) && n > 0 && f.parse(sl).Good?
    requires ReadFromFront(f, n - 1, After(sl, f.parse(sl).used), r)
    ensures ReadFromFront(f, n, sl, Join(Turn(f.parse(sl)), r))
  {
    var p := f.parse(sl);
    ConsAll(f, sl.off, p.value, r.items);
    PrependPrefix(sl.bytes, p.used, EncodeAll(f.encode, r.items));
  }

  lemma {:induction false} ManyComplete<T(!new)>(f: Format<T>, items: seq<T>, b: nat, rest: seq<Byte>)
    requires Lawful(f) && AllOk(f.ok, items)
    ensures ManyRun(f, |items|, Slice(b, EncodeAll(f.encode, items) + rest))
         == Run(items, |EncodeAll(f.encode, items)|, EventsOfAll(f, b, items), None)
  {
    hide EncodeAll, EventsOfAll;
    if items == [] {
      NothingToRead(f, b);
    } else {
      var x, y := f.encode(items[0]), EncodeAll(f.encode, items[1..]);
      ConsAll(f, b, items[0], items[1..]);
      assert [items[0]] + items[1..] == items;
      assert EncodeAll(f.encode, items) + rest == x + (y + rest);
      assert CompleteAt(f, b, items[0], y + rest);
      assert Drop(x + (y + rest), |x|) == y + rest;
      ManyComplete(f, items[1..], b + |x|, rest);
    }
  }

  lemma RunStep<T>(f: Format<T>, n: nat, sl: Slice)
    requires n > 0
    ensures var t := Turn(f.parse(sl));
      ManyRun(f, n, sl) == if t.error.Some? then t else Join(t, ManyRun(f, n - 1, After(sl, t.used)))
  {
  }

  lemma {:induction false} ManyCut<T(!new)>(f: Format<T>, items: seq<T>, b: nat, k: nat)
    requires Lawful(f) && AllOk(f.ok, items) && k < |EncodeAll(f.encode, items)|
    ensures var r := ManyRun(f, |items|, Slice(b, EncodeAll(f.encode, items)[..k]));
      r.error.Some? && Starved(r.error.value) && r.events <= EventsOfAll(f, b, items)
  {
    hide ManyRun, EncodeAll, EventsOfAll;
    NothingToRead(f, b);
    var x, y := f.encode(items[0]), EncodeAll(f.encode, items[1..]);
    ConsAll(f, b, items[0], items[1..]);
    assert [items[0]] + items[1..] == items;
    RunStep(f, |items|, Slice(b, (x + y)[..k]));
    if k < |x| {
      assert (x + y)[..k] == x[..k];
      assert CutAt(f, b, items[0], k);
    } else {
      var z := y[..k - |x|];
      assert (x + y)[..k] == x + z;
      assert CompleteAt(f, b, items[0], z);
      assert Drop(x + z, |x|) == z;
      ManyCut(f, items[1..], b + |x|, k - |x|);
    }
  }

  lemma LawfulMany<T(!new)>(f: Format<T>, n: nat)
    requires Lawful(f)
    ensures Lawful(Many(f, n))
  {
    var h := Many(f, n);
    forall sl: Slice ensures SoundAt(h, sl) {
      ManySound(f, n, sl);
    }
    forall b: nat, items: seq<T>, rest: seq<Byte> ensures CompleteAt(h, b, items, rest) {
      if h.ok(items) {
        ManyComplete(f, items, b, rest);
      }
    }
    forall b: nat, items: seq<T>, k: nat ensures CutAt(h, b, items, k) {
      if h.ok(items) && k < |h.encode(items)| {
        ManyCut(f, items, b, k);
      }
    }
  }

  lemma {:induction false} QuietRun<T(!new)>(f: Format<T>, n: nat, sl: Slice)
    requires Quiet(f)
    ensures ManyRun(f, n, sl).events == []
  {
    if n > 0 && f.parse(sl).Good? {
      QuietRun(f, n - 1, After(sl, f.parse(sl).used));
    }
  }

  /** A silent header and the list whose length it gives. */
  function Listed<H, A>(head: Format<H>, count: H -> nat, item: Format<A>): Format<(H, seq<A>)> {
    Bind(head, (h: H) => Many(item, count(h)))
  }

  lemma ListedGrammar<H, A>(head: Format<H>, count: H -> nat, item: Format<A>, b: nat, h: H, items: seq<A>)
    requires head.events == Silent()
    ensures var f := Listed(head, count, item);
      && f.encode((h, items)) == head.encode(h) + EncodeAll(item.encode, items)
      && f.ok((h, items)) == (head.ok(h) && |items| == count(h) && AllOk(item.ok, items))
      && f.events(b, (h, items)) == EventsOfAll(item, b + |head.encode(h)|, items)
  {
    hide EventsOfAll, EncodeAll;
    var ev := EventsOfAll(item, b + |head.encode(h)|, items);
    assert [] + ev == ev;
  }

  lemma ListedReads<H, A>(head: Format<H>, count: H -> nat, item: Format<A>, sl: Slice)
    requires Quiet(head)
    ensures var h := head.parse(sl);
      Listed(head, count, item).parse(sl) ==
      if h.Bad? then Bad(h.error, h.used, []) else
        var l := ManyRun(item, count(h.value), After(sl, h.used));
        if l.error.Some? then Bad(l.error.value, h.used + l.used, l.events)
        else Good((h.value, l.items), h.used + l.used, l.events)
  {
    hide ManyRun, After;
    var body := (h: H) => Many(item, count(h));
    assert Listed(head, count, item).parse(sl) == BindParse(head, body, sl);
    var h := head.parse(sl);
    if h.Good? {
      var l := ManyRun(item, count(h.value), After(sl, h.used));
      assert [] + l.events == l.events;
    }
  }

  lemma LawfulListed<H(!new), A(!new)>(head: Format<H>, count: H -> nat, item: Format<A>)
    requires Lawful(head) && Lawful(item)
    ensures Lawful(Listed(head, count, item))
  {
    var body := (h: H) => Many(item, count(h));
    forall h ensures Lawful(body(h)) {
      LawfulMany(item, count(h));
    }
    LawfulBind(head, body);
  }

  /** A silent header, the list whose length it gives, and what follows. */
  function Counted<H, A, B>(
    head: Format<H>, count: H -> nat, item: Format<A>, end: H -> Format<B>): Format<(H, (seq<A>, B))>
  {
    Bind(head, CountedBody(count, item, end))
  }

  function CountedBody<H, A, B>(count: H -> nat, item: Format<A>, end: H -> Format<B>): H -> Format<(seq<A>, B)> {
    (h: H) => Pair(Many(item, count(h)), end(h))
  }

  lemma CountedBodyAt<H, A, B>(count: H -> nat, item: Format<A>, end: H -> Format<B>, h: H)
    ensures CountedBody(count, item, end)(h) == Pair(Many(item, count(h)), end(h))
  {
  }

  lemma CountedGrammar<H, A, B>(
    head: Format<H>, count: H -> nat, item: Format<A>, end: H -> Format<B>, b: nat, h: H, items: seq<A>, rest: B)
    requires head.events == Silent()
    ensures var f := Counted(head, count, item, end);
      var at := b + |head.encode(h)|;
      && f.encode((h, (items, rest))) == head.encode(h) + (EncodeAll(item.encode, items) + end(h).encode(rest))
      && f.ok((h, (items, rest))) == (head.ok(h) && |items| == count(h) && AllOk(item.ok, items) && end(h).ok(rest))
      && f.events(b, (h, (items, rest)))
         == EventsOfAll(item, at, items) + end(h).events(at + |EncodeAll(item.encode, items)|, rest)
  {
    hide EventsOfAll, EncodeAll, AllOk, Bind, Pair, Many, CountedBody;
    var at, m := b + |head.encode(h)|, Many(item, count(h));
    var y := (items, rest);
    ManyGrammar(item, count(h), at, items);
    PairGrammar(m, end(h), at, items, rest);
    CountedBodyAt(count, item, end, h);
    BindGrammar(head, CountedBody(count, item, end), b, h, y);
    var ev := Pair(m, end(h)).events(at, y);
    assert head.events(b, h) == [];
    assert [] + ev == ev;
  }

  /** The reads of a counted list, one after another. */
  function CountedParse<H, A, B>(
    head: Format<H>, count: H -> nat, item: Format<A>, end: H -> Format<B>, sl: Slice): Parsed<(H, (seq<A>, B))>
  {
    var h := head.parse(sl);
    if h.Bad? then Bad(h.error, h.used, []) else
      var l := ManyRun(item, count(h.value), After(sl, h.used));
      if l.error.Some? then Bad(l.error.value, h.used + l.used, l.events) else
        var e := end(h.value).parse(After(After(sl, h.used), l.used));
        if e.Bad? then Bad(e.error, h.used + l.used + e.used, l.events + e.events)
        else Good((h.value, (l.items, e.value)), h.used + l.used + e.used, l.events + e.events)
  }

  lemma CountedReads<H, A, B>(head: Format<H>, count: H -> nat, item: Format<A>, end: H -> Format<B>, sl: Slice)
    requires Quiet(head)
    ensures Counted(head, count, item, end).parse(sl) == CountedParse(head, count, item, end, sl)
  {
    hide ManyRun, After;
    var body := CountedBody(count, item, end);
    var h, p := head.parse(sl), CountedParse(head, count, item, end, sl);
    assert Counted(head, count, item, end).parse(sl) == BindParse(head, body, sl);
    if h.Good? {
      PairReads(Many(item, count(h.value)), end(h.value), After(sl, h.used));
    }
    assert [] + p.events == p.events;
  }

  lemma LawfulCounted<H(!new), A(!new), B(!new)>(head: Format<H>, count: H -> nat, item: Format<A>, end: H -> Format<B>)
    requires Lawful(head) && Lawful(item)
    requires forall h :: Lawful(end(h))
    ensures Lawful(Counted(head, count, item, end))
  {
    var body := CountedBody(count, item, end);
    forall h ensures Lawful(body(h)) {
      LawfulMany(item, count(h));
      LawfulPair(Many(item, count(h)), end(h));
    }
    LawfulBind(head, body);
  }

  /** How a loop of `n` turns splits after the turns in `past`: the invariant of every counted loop. */
  ghost predicate Midway<T(!new)>(f: Format<T>, n: nat, sl: Slice, past: Run<T>) {
    && past.error.None? && |past.items| <= n
    && ManyRun(f, n, sl) == Join(past, ManyRun(f, n - |past.items|, After(sl, past.used)))
  }

  lemma MidwayStart<T(!new)>(f: Format<T>, n: nat, sl: Slice)
    ensures Midway(f, n, sl, Run([], 0, [], None))
  {
    var r := ManyRun(f, n, sl);
    assert [] + r.items == r.items && [] + r.events == r.events;
    assert After(sl, 0) == sl;
  }

  lemma MidwayStep<T(!new)>(f: Format<T>, n: nat, sl: Slice, past: Run<T>)
    requires Midway(f, n, sl, past) && |past.items| < n
    ensures var t := Turn(f.parse(After(sl, past.used)));
      if t.error.Some? then ManyRun(f, n, sl) == Join(past, t) else Midway(f, n, sl, Join(past, t))
  {
    var t := Turn(f.parse(After(sl, past.used)));
    if t.error.None? {
      AfterAfter(sl, past.used, t.used);
      JoinJoin(past, t, ManyRun(f, n - |past.items| - 1, After(sl, past.used + t.used)));
      hide After;
    }
  }

  lemma MidwayEnd<T(!new)>(f: Format<T>, n: nat, sl: Slice, past: Run<T>)
    requires Midway(f, n, sl, past) && |past.items| == n
    ensures ManyRun(f, n, sl) == past && past.error.None?
  {
    assert past.items + [] == past.items && past.events + [] == past.events;
  }

  lemma {:induction false} FullRun<T(!new)>(f: Format<T>, n: nat, sl: Slice)
    ensures var r := ManyRun(f, n, sl); r.error.None? ==> |r.items| == n
  {
    if n > 0 && f.parse(sl).Good? {
      FullRun(f, n - 1, After(sl, f.parse(sl).used));
    }
  }

  lemma JoinJoin<T>(x: Run<T>, y: Run<T>, z: Run<T>)
    ensures Join(x, Join(y, z)) == Join(Join(x, y), z)
  {
    assert x.items + (y.items + z.items) == (x.items + y.items) + z.items;
    assert x.events + (y.events + z.events) == (x.events + y.events) + z.events;
  }

  // --------------------------------------------------- loops to end of input

  /** `while !rest.is_empty() { f? }`; a reader that does not advance would end the loop. */
  function AllRun<T>(f: Format<T>, sl: Slice): Run<T>
    decreases |sl.bytes|
  {
    if sl.bytes == [] then Run([], 0, [], None) else
      var t := Turn(f.parse(sl));
      if t.error.Some? || t.used == 0 then t else Join(t, AllRun(f, After(sl, t.used)))
  }

  ghost predicate NonEmpty<T(!new)>(f: Format<T>) {
    forall v :: f.ok(v) ==> |f.encode(v)| > 0
  }

  ghost predicate Tiles<T>(f: Format<T>, s: seq<Byte>, r: Run<T>) {
    AllOk(f.ok, r.items) && EncodeAll(f.encode, r.items) <= s && (r.error.None? <==> EncodeAll(f.encode, r.items) == s)
  }

  /** The items of a loop to the end of input tile the front of the input, and all of it exactly when there is no
      error. */
  lemma {:induction false} AllSound<T(!new)>(f: Format<T>, sl: Slice)
    requires Lawful(f) && NonEmpty(f)
    ensures Tiles(f, sl.bytes, AllRun(f, sl))
    decreases |sl.bytes|
  {
    if sl.bytes != [] {
      var p := f.parse(sl);
      assert SoundAt(f, sl);
      if p.Good? {
        AllSound(f, After(sl, p.used));
        TilesCons(f, sl, AllRun(f, After(sl, p.used)));
      }
    }
  }

  lemma TilesCons<T(!new)>(f: Format<T>, sl: Slice, r: Run<T>)
    requires SoundAt(f, sl) && f.parse(sl).Good?
    requires Tiles(f, After(sl, f.parse(sl).used).bytes, r)
    ensures Tiles(f, sl.bytes, Join(Turn(f.parse(sl)), r))
  {
    var p := f.parse(sl);
    ConsAll(f, sl.off, p.value, r.items);
    PrependPrefix(sl.bytes, p.used, EncodeAll(f.encode, r.items));
  }

  lemma {:induction false} AllComplete<T(!new)>(f: Format<T>, items: seq<T>, b: nat)
    requires Lawful(f) && NonEmpty(f) && AllOk(f.ok, items)
    ensures AllRun(f, Slice(b, EncodeAll(f.encode, items)))
         == Run(items, |EncodeAll(f.encode, items)|, EventsOfAll(f, b, items), None)
  {
    hide AllRun, EncodeAll, EventsOfAll;
    if items == [] {
      NothingToRead(f, b);
    } else {
      var x, rest := f.encode(items[0]), items[1..];
      var y := EncodeAll(f.encode, rest);
      ConsAll(f, b, items[0], rest);
      assert [items[0]] + rest == items;
      assert CompleteAt(f, b, items[0], y);
      assert Drop(x + y, |x|) == y;
      AllRunStep(f, Slice(b, x + y));
      AllComplete(f, rest, b + |x|);
    }
  }

  lemma NothingToRead<T(!new)>(f: Format<T>, b: nat)
    ensures AllRun(f, Slice(b, [])) == Run([], 0, [], None)
    ensures EncodeAll(f.encode, []) == [] && EventsOfAll(f, b, []) == []
  {
  }

  /** How a loop to the end of input splits after the items in `past`. */
  ghost predicate Onward<T(!new)>(f: Format<T>, sl: Slice, past: Run<T>) {
    past.error.None? && AllRun(f, sl) == Join(past, AllRun(f, After(sl, past.used)))
  }

  lemma OnwardStart<T(!new)>(f: Format<T>, sl: Slice)
    ensures Onward(f, sl, Run([], 0, [], None))
  {
    var r := AllRun(f, sl);
    assert [] + r.items == r.items && [] + r.events == r.events;
    assert After(sl, 0) == sl;
  }

  lemma OnwardStep<T(!new)>(f: Format<T>, sl: Slice, past: Run<T>)
    requires Onward(f, sl, past) && After(sl, past.used).bytes != []
    ensures var p := f.parse(After(sl, past.used));
      var t := Turn(p);
      if p.Bad? then AllRun(f, sl) == Join(past, t) else p.used > 0 ==> Onward(f, sl, Join(past, t))
  {
    hide AllRun, Join;
    var here := After(sl, past.used);
    var t := Turn(f.parse(here));
    AllRunStep(f, here);
    if t.error.None? && t.used > 0 {
      var rest := AllRun(f, After(here, t.used));
      JoinJoin(past, t, rest);
      JoinParts(past, t);
      AfterAfter(sl, past.used, t.used);
      assert AllRun(f, sl) == Join(Join(past, t), rest);
      assert After(here, t.used) == After(sl, Join(past, t).used);
    }
  }

  lemma JoinParts<T>(x: Run<T>, y: Run<T>)
    ensures Join(x, y).used == x.used + y.used && Join(x, y).error == y.error
  {
  }

  lemma AllRunStep<T(!new)>(f: Format<T>, sl: Slice)
    requires sl.bytes != []
    ensures var t := Turn(f.parse(sl));
      AllRun(f, sl) == if t.error.Some? || t.used == 0 then t else Join(t, AllRun(f, After(sl, t.used)))
  {
  }

  lemma OnwardEnd<T(!new)>(f: Format<T>, sl: Slice, past: Run<T>)
    requires Onward(f, sl, past) && After(sl, past.used).bytes == []
    ensures AllRun(f, sl) == past
  {
    hide AllRun, After;
    AllRunEmpty(f, After(sl, past.used));
    assert past.items + [] == past.items && past.events + [] == past.events;
  }

  lemma AllRunEmpty<T(!new)>(f: Format<T>, sl: Slice)
    requires sl.bytes == []
    ensures AllRun(f, sl) == Run([], 0, [], None)
  {
  }
}
