/**
 * Structural call dispatch of `src/call.rs`.
 *
 * A call target is a tree: primitives at the leaves, `Option`/`Result`/
 * one-tuples wrapping one child, 2- to 4-tuples, `Vec`s and fixed arrays
 * holding several, and user objects (types implementing `FieldCall` and
 * `MethodCall`) whose own handlers are parameters of the model.  A call
 * instruction mirrors the target's `Call` type: `()` for primitives, an
 * index and a sub-call for `Vec`/arrays, `FieldK(sub)` for tuples, an
 * `Item` for objects, and the inner call unchanged for the wrappers.
 *
 * `Dispatch` is the value-level meaning of `call(&mut self, …)`: the new
 * target and the result.  `RouteOf` is an independent description of the
 * same walk as a path to one leaf, and `DispatchDecomposes` proves that
 * dispatch changes nothing but the subtree on that path.
 */
module Calls {
  import opened Results
  import opened Bytes
  import opened Encoding

  /** `PREFIX_OFFSET`: method discriminants are shifted up by this much. */
  const PREFIX_OFFSET: byte := 0x40

  const U32_LIMIT: nat := 0x1_0000_0000

  // ---------------------------------------------------------------------
  // Targets and instructions

  datatype Item<F, M> = Field(field: F) | Method(call: M)

  datatype Target =
    | Prim(value: int)                           // (), bool, u8 … i128
    | Object(state: seq<byte>, hasMethods: bool) // FieldCall + MethodCall
    | OptSome(inner: Target)                     // Some(inner)
    | OptNone                                    // None
    | ResOk(inner: Target)                       // Ok(inner)
    | ResErr(description: string)                // Err(e), with e.to_string()
    | Single(inner: Target)                      // (T,)
    | Tuple(fields: seq<Target>)                 // (T, U), (T, U, V), (T, U, V, W)
    | VecT(elems: seq<Target>)                   // Vec<T>
    | ArrayT(elems: seq<Target>)                 // [T; N] with N == |elems|

  datatype Instr =
    | Unit                                      // ()
    | Indexed(index: nat, sub: Instr)           // (u32, T::Call) or (u64, T::Call)
    | FieldK(k: nat, sub: Instr)                // TupleNCall::FieldK(sub)
    | Member(item: Item<seq<byte>, seq<byte>>)  // Item<FieldCall, MethodCall>

  /** What a call leaves behind: the target after the call and its result. */
  datatype Outcome = Outcome(target: Target, result: Result<()>)

  /** The effect of a user object's `field_call` or `method_call`. */
  datatype Step = Step(state: seq<byte>, result: Result<()>)

  type Handler = (seq<byte>, Item<seq<byte>, seq<byte>>) -> Step

  /**
   * The instruction has the type the target's `Call` demands.  Rust's type
   * checker guarantees this; below an empty `Option`, an `Err` or an index
   * out of range there is no value to check the sub-call against.
   */
  predicate Fits(t: Target, c: Instr)
    decreases t
  {
    match t
    case Prim(_) => c.Unit?
    case Object(_, _) => c.Member?
    case OptSome(x) => Fits(x, c)
    case OptNone => true
    case ResOk(x) => Fits(x, c)
    case ResErr(_) => true
    case Single(x) => Fits(x, c)
    case Tuple(fs) => 2 <= |fs| <= 4 && c.FieldK? && c.k < |fs| && Fits(fs[c.k], c.sub)
    case VecT(es) => c.Indexed? && c.index < U32_LIMIT && (c.index < |es| ==> Fits(es[c.index], c.sub))
    case ArrayT(es) => c.Indexed? && c.index < U64_LIMIT && (c.index < |es| ==> Fits(es[c.index], c.sub))
  }

  /** Two targets have the same kind, the same number of children, and so on down. */
  predicate SameShape(a: Target, b: Target)
    decreases a
  {
    match a
    case Prim(_) => b == a
    case Object(_, m) => b.Object? && b.hasMethods == m
    case OptSome(x) => b.OptSome? && SameShape(x, b.inner)
    case OptNone => b == a
    case ResOk(x) => b.ResOk? && SameShape(x, b.inner)
    case ResErr(_) => b == a
    case Single(x) => b.Single? && SameShape(x, b.inner)
    case Tuple(fs) => b.Tuple? && SameShapes(fs, b.fields)
    case VecT(es) => b.VecT? && SameShapes(es, b.elems)
    case ArrayT(es) => b.ArrayT? && SameShapes(es, b.elems)
  }

  predicate SameShapes(xs: seq<Target>, ys: seq<Target>)
    decreases xs, 0
  {
    |xs| == |ys| && forall i | 0 <= i < |xs| :: SameShape(xs[i], ys[i])
  }

  lemma {:induction false} SameShapeReflexive(t: Target)
    ensures SameShape(t, t)
    decreases t, 1
  {
    match t
    case Prim(_) =>
    case Object(_, _) =>
    case OptSome(x) => SameShapeReflexive(x);
    case OptNone =>
    case ResOk(x) => SameShapeReflexive(x);
    case ResErr(_) =>
    case Single(x) => SameShapeReflexive(x);
    case Tuple(fs) => SameShapesReflexive(t, fs);
    case VecT(es) => SameShapesReflexive(t, es);
    case ArrayT(es) => SameShapesReflexive(t, es);
  }

  lemma {:induction false} SameShapesReflexive(t: Target, xs: seq<Target>)
    requires xs == Children(t)
    ensures SameShapes(xs, xs)
    decreases t, 0
  {
    forall j | 0 <= j < |xs|
      ensures SameShape(xs[j], xs[j])
    {
      SameShapeReflexive(xs[j]);
    }
  }

  /** Replacing one element by one of the same shape keeps the sequence's shape. */
  lemma {:induction false} SameShapesUpdate(xs: seq<Target>, i: nat, x: Target)
    requires i < |xs| && SameShape(xs[i], x)
    ensures SameShapes(xs, xs[i := x])
  {
    forall j | 0 <= j < |xs|
      ensures SameShape(xs[j], xs[i := x][j])
    {
      if j != i {
        SameShapeReflexive(xs[j]);
      }
    }
  }

  // ---------------------------------------------------------------------
  // Dispatch (`Call::call` for every impl in the file)

  /** A leaf: a primitive's no-op call, or a user object's field or method call. */
  function CallLeaf(h: Handler, t: Target, c: Instr): (o: Outcome)
    requires (t.Prim? || t.Object?) && Fits(t, c)
    ensures SameShape(t, o.target)
    ensures t.Prim? ==> o == Outcome(t, Ok(()))
    ensures t.Object? && c.item.Method? && !t.hasMethods ==> o == Outcome(t, Err(Call("Method not found")))
  {
    match t
    case Prim(_) => Outcome(t, Ok(()))
    case Object(s, m) =>
      if c.item.Method? && !m then
        Outcome(t, Err(Call("Method not found")))
      else
        var step := h(s, c.item);
        Outcome(Object(step.state, m), step.result)
  }

  /**
   * `call(&mut self, call)`: wrappers pass the call to their inner value,
   * tuples to the addressed field, `Vec`s and arrays to the addressed
   * element after a bounds check.  Dispatch never changes the shape of
   * the target: no element appears or disappears, no `Option` is emptied.
   */
  function Dispatch(h: Handler, t: Target, c: Instr): (o: Outcome)
    requires Fits(t, c)
    ensures SameShape(t, o.target)
    decreases t
  {
    match t
    case Prim(_) => CallLeaf(h, t, c)
    case Object(_, _) => CallLeaf(h, t, c)
    case OptSome(x) =>
      var o := Dispatch(h, x, c);
      Outcome(OptSome(o.target), o.result)
    case OptNone => Outcome(t, Err(Call("Call option is None")))
    case ResOk(x) =>
      var o := Dispatch(h, x, c);
      Outcome(ResOk(o.target), o.result)
    case ResErr(d) => Outcome(t, Err(Call(d)))
    case Single(x) =>
      var o := Dispatch(h, x, c);
      Outcome(Single(o.target), o.result)
    case Tuple(fs) =>
      var o := Dispatch(h, fs[c.k], c.sub);
      SameShapesUpdate(fs, c.k, o.target);
      Outcome(Tuple(fs[c.k := o.target]), o.result)
    case VecT(es) =>
      if c.index < |es| then
        var o := Dispatch(h, es[c.index], c.sub);
        SameShapesUpdate(es, c.index, o.target);
        Outcome(VecT(es[c.index := o.target]), o.result)
      else
        SameShapeReflexive(t);
        Outcome(t, Err(App("Index out of bounds")))
    case ArrayT(es) =>
      if c.index >= |es| then
        SameShapeReflexive(t);
        Outcome(t, Err(Call("Call index out of bounds")))
      else
        var o := Dispatch(h, es[c.index], c.sub);
        SameShapesUpdate(es, c.index, o.target);
        Outcome(ArrayT(es[c.index := o.target]), o.result)
  }

  // ---------------------------------------------------------------------
  // Paths into a target

  function Children(t: Target): seq<Target>
  {
    match t
    case OptSome(x) => [x]
    case ResOk(x) => [x]
    case Single(x) => [x]
    case Tuple(fs) => fs
    case VecT(es) => es
    case ArrayT(es) => es
    case _ => []
  }

  /** `t` with its `i`-th child replaced by `x`. */
  function WithChild(t: Target, i: nat, x: Target): (r: Target)
    requires i < |Children(t)|
    ensures Children(r) == Children(t)[i := x]
  {
    match t
    case OptSome(_) => OptSome(x)
    case ResOk(_) => ResOk(x)
    case Single(_) => Single(x)
    case Tuple(fs) => Tuple(fs[i := x])
    case VecT(es) => VecT(es[i := x])
    case ArrayT(es) => ArrayT(es[i := x])
  }

  /** The subtree at a path of child positions, if the path exists. */
  function Get(t: Target, p: seq<nat>): Option<Target>
    decreases |p|
  {
    if p == [] then Some(t)
    else if p[0] < |Children(t)| then Get(Children(t)[p[0]], p[1..])
    else None
  }

  /** `t` with the subtree at `p` replaced by `x`; unchanged if `p` does not exist. */
  function Put(t: Target, p: seq<nat>, x: Target): Target
    decreases |p|
  {
    if p == [] then x
    else if p[0] < |Children(t)| then WithChild(t, p[0], Put(Children(t)[p[0]], p[1..], x))
    else t
  }

  /** Neither path is a prefix of the other: they part at some position. */
  predicate Diverge(p: seq<nat>, q: seq<nat>)
    decreases |p|
  {
    |p| > 0 && |q| > 0 && (p[0] != q[0] || Diverge(p[1..], q[1..]))
  }

  lemma {:induction false} PutGetSame(t: Target, p: seq<nat>, x: Target)
    requires Get(t, p).Some?
    ensures Get(Put(t, p, x), p) == Some(x)
    decreases |p|
  {
    if p != [] {
      PutGetSame(Children(t)[p[0]], p[1..], x);
    }
  }

  /** Writing at `p` is invisible at every path that parts from `p`. */
  lemma {:induction false} PutGetOther(t: Target, p: seq<nat>, q: seq<nat>, x: Target)
    requires Diverge(p, q)
    ensures Get(Put(t, p, x), q) == Get(t, q)
    decreases |p|
  {
    if p[0] < |Children(t)| && p[0] == q[0] {
      PutGetOther(Children(t)[p[0]], p[1..], q[1..], x);
    }
  }

  // ---------------------------------------------------------------------
  // Routing: where a call lands, or why it is refused

  datatype Route = Routed(path: seq<nat>, leaf: Instr) | Refused(error: Error)

  function Under(i: nat, r: Route): Route
  {
    match r
    case Routed(p, leaf) => Routed([i] + p, leaf)
    case Refused(_) => r
  }

  /**
   * The path a call follows and the instruction that reaches the leaf, or
   * the error of the first empty `Option`, `Err` or out-of-range index on
   * the way.  A routed call always ends at an existing primitive or object.
   */
  function RouteOf(t: Target, c: Instr): (r: Route)
    requires Fits(t, c)
    ensures r.Routed? ==> Get(t, r.path).Some?
    ensures r.Routed? ==> var leaf := Get(t, r.path).value; (leaf.Prim? || leaf.Object?) && Fits(leaf, r.leaf)
    decreases t
  {
    match t
    case Prim(_) => Routed([], c)
    case Object(_, _) => Routed([], c)
    case OptSome(x) => Under(0, RouteOf(x, c))
    case OptNone => Refused(Call("Call option is None"))
    case ResOk(x) => Under(0, RouteOf(x, c))
    case ResErr(d) => Refused(Call(d))
    case Single(x) => Under(0, RouteOf(x, c))
    case Tuple(fs) => Under(c.k, RouteOf(fs[c.k], c.sub))
    case VecT(es) =>
      if c.index < |es| then Under(c.index, RouteOf(es[c.index], c.sub))
      else Refused(App("Index out of bounds"))
    case ArrayT(es) =>
      if c.index >= |es| then Refused(Call("Call index out of bounds"))
      else Under(c.index, RouteOf(es[c.index], c.sub))
  }

  /**
   * Dispatch is routing followed by one leaf call: a refused call returns
   * the refusal and leaves the target as it was; a routed call changes the
   * target only by replacing the leaf at the route with what the leaf call
   * made of it, and returns the leaf call's result.
   */
  lemma {:induction false} DispatchDecomposes(h: Handler, t: Target, c: Instr)
    requires Fits(t, c)
    ensures RouteOf(t, c).Refused? ==> Dispatch(h, t, c) == Outcome(t, Err(RouteOf(t, c).error))
    ensures RouteOf(t, c).Routed? ==>
      var r := RouteOf(t, c);
      var o := CallLeaf(h, Get(t, r.path).value, r.leaf);
      Dispatch(h, t, c) == Outcome(Put(t, r.path, o.target), o.result)
    decreases t, 1
  {
    match t
    case Prim(_) =>
    case Object(_, _) =>
    case OptSome(x) => DispatchStep(h, t, 0, x, c);
    case OptNone =>
    case ResOk(x) => DispatchStep(h, t, 0, x, c);
    case ResErr(_) =>
    case Single(x) => DispatchStep(h, t, 0, x, c);
    case Tuple(fs) => DispatchStep(h, t, c.k, fs[c.k], c.sub);
    case VecT(es) =>
      if c.index < |es| {
        DispatchStep(h, t, c.index, es[c.index], c.sub);
      }
    case ArrayT(es) =>
      if c.index < |es| {
        DispatchStep(h, t, c.index, es[c.index], c.sub);
      }
  }

  /** One level of `DispatchDecomposes`: the call descends into child `i`. */
  lemma {:induction false} DispatchStep(h: Handler, t: Target, i: nat, x: Target, sub: Instr)
    requires i < |Children(t)| && Children(t)[i] == x && Fits(x, sub)
    requires Fits(t, if t.Tuple? then FieldK(i, sub) else if t.VecT? || t.ArrayT? then Indexed(i, sub) else sub)
    ensures var c := if t.Tuple? then FieldK(i, sub) else if t.VecT? || t.ArrayT? then Indexed(i, sub) else sub;
      var inner := Dispatch(h, x, sub);
      Dispatch(h, t, c) == Outcome(WithChild(t, i, inner.target), inner.result)
      && RouteOf(t, c) == Under(i, RouteOf(x, sub))
      && (RouteOf(x, sub).Refused? ==> Dispatch(h, t, c) == Outcome(t, Err(RouteOf(t, c).error)))
      && (RouteOf(x, sub).Routed? ==>
            var r := RouteOf(t, c);
            var o := CallLeaf(h, Get(t, r.path).value, r.leaf);
            Dispatch(h, t, c) == Outcome(Put(t, r.path, o.target), o.result))
    decreases x, 2
  {
    DispatchDecomposes(h, x, sub);
    var rx := RouteOf(x, sub);
    if rx.Routed? {
      var p := [i] + rx.path;
      assert p[0] == i && p[1..] == rx.path;
    } else {
      assert WithChild(t, i, x) == t;
    }
  }

  /**
   * Only the addressed child changes: every part of the target off the
   * call's route reads the same after the call, and a refused call changes
   * nothing at all.
   */
  lemma DispatchOnlyTouchesRoute(h: Handler, t: Target, c: Instr, q: seq<nat>)
    requires Fits(t, c)
    ensures RouteOf(t, c).Refused? ==> Dispatch(h, t, c).target == t
    ensures RouteOf(t, c).Routed? && Diverge(RouteOf(t, c).path, q) ==>
      Get(Dispatch(h, t, c).target, q) == Get(t, q)
  {
    DispatchDecomposes(h, t, c);
    var r := RouteOf(t, c);
    if r.Routed? && Diverge(r.path, q) {
      var o := CallLeaf(h, Get(t, r.path).value, r.leaf);
      PutGetOther(t, r.path, q, o.target);
    }
  }

  /**
   * The refusals at the top of a target: an empty `Option`, an `Err`, and
   * an index past the end of a `Vec` or an array each fail with their own
   * error and leave the target as it was.
   */
  lemma DispatchRefusals(h: Handler, t: Target, c: Instr)
    requires Fits(t, c)
    ensures t.OptNone? ==> Dispatch(h, t, c) == Outcome(t, Err(Call("Call option is None")))
    ensures t.ResErr? ==> Dispatch(h, t, c) == Outcome(t, Err(Call(t.description)))
    ensures t.VecT? && c.index >= |t.elems| ==> Dispatch(h, t, c) == Outcome(t, Err(App("Index out of bounds")))
    ensures t.ArrayT? && c.index >= |t.elems| ==> Dispatch(h, t, c) == Outcome(t, Err(Call("Call index out of bounds")))
  {
  }

  /** The leaf at the route holds exactly what the leaf call produced. */
  lemma DispatchUpdatesLeaf(h: Handler, t: Target, c: Instr)
    requires Fits(t, c) && RouteOf(t, c).Routed?
    ensures var r := RouteOf(t, c);
      Get(Dispatch(h, t, c).target, r.path) == Some(CallLeaf(h, Get(t, r.path).value, r.leaf).target)
  {
    DispatchDecomposes(h, t, c);
    var r := RouteOf(t, c);
    PutGetSame(t, r.path, CallLeaf(h, Get(t, r.path).value, r.leaf).target);
  }

  // ---------------------------------------------------------------------
  // In-place dispatch into a `Vec` and a fixed array

  /** A `Vec<T>` of call targets, updated in place by `call`. */
  class TargetVec {
    var elems: seq<Target>

    constructor (elems0: seq<Target>)
      ensures elems == elems0
    {
      elems := elems0;
    }

    /** `<Vec<T> as Call>::call((index, subcall))` */
    method Call(h: Handler, index: nat, sub: Instr) returns (r: Result<()>)
      requires Fits(VecT(elems), Indexed(index, sub))
      modifies this
      ensures VecT(elems) == Dispatch(h, VecT(old(elems)), Indexed(index, sub)).target
      ensures r == Dispatch(h, VecT(old(elems)), Indexed(index, sub)).result
      ensures |elems| == |old(elems)|
    {
      if index >= |elems| {
        return Err(App("Index out of bounds"));
      }
      var o := Dispatch(h, elems[index], sub);
      elems := elems[index := o.target];
      r := o.result;
    }
  }

  /** `<[T; N] as Call>::call((index, subcall))` on an array of length N. */
  method CallArray(h: Handler, a: array<Target>, index: nat, sub: Instr) returns (r: Result<()>)
    requires Fits(ArrayT(a[..]), Indexed(index, sub))
    modifies a
    ensures ArrayT(a[..]) == Dispatch(h, ArrayT(old(a[..])), Indexed(index, sub)).target
    ensures r == Dispatch(h, ArrayT(old(a[..])), Indexed(index, sub)).result
  {
    if index >= a.Length {
      return Err(Call("Call index out of bounds"));
    }
    var o := Dispatch(h, a[index], sub);
    a[index] := o.target;
    r := o.result;
  }

  // ---------------------------------------------------------------------
  // `maybe_call`

  /**
   * `maybe_call(value, bytes)`: a type without a `Call` impl refuses; one
   * with it decodes its call from the bytes and dispatches it.  The value
   * is taken by value, so only the result survives.  `decode` stands for
   * `T::Call::decode`, which yields only instructions of `T`'s call type.
   * Decoding reads from the slice without requiring it to be used up, so
   * bytes after the call are ignored.
   */
  function MaybeCall(h: Handler, implementsCall: bool, decode: seq<byte> -> Result<Decoded<Instr>>,
                     t: Target, bytes: seq<byte>): (r: Result<()>)
    requires forall bs :: decode(bs).Ok? ==> Fits(t, decode(bs).value.value)
    ensures !implementsCall ==> r == Err(Call("Call is not implemented"))
    ensures implementsCall && decode(bytes).Err? ==> r == Err(decode(bytes).error)
    ensures implementsCall && decode(bytes).Ok? ==> r == Dispatch(h, t, decode(bytes).value.value).result
  {
    if !implementsCall then
      Err(Call("Call is not implemented"))
    else
      var d :- decode(bytes);
      Dispatch(h, t, d.value).result
  }

  /** A decoded call that routes to nothing fails with the routing error, untouched by the leaf. */
  lemma MaybeCallRefused(h: Handler, decode: seq<byte> -> Result<Decoded<Instr>>, t: Target, bytes: seq<byte>)
    requires forall bs :: decode(bs).Ok? ==> Fits(t, decode(bs).value.value)
    requires decode(bytes).Ok? && RouteOf(t, decode(bytes).value.value).Refused?
    ensures MaybeCall(h, true, decode, t, bytes) == Err(RouteOf(t, decode(bytes).value.value).error)
  {
    DispatchDecomposes(h, t, decode(bytes).value.value);
  }

  // ---------------------------------------------------------------------
  // `Item<Field, Method>` on the wire

  /**
   * The method's own bytes with the discriminant shifted: refused unless
   * the encoding is non-empty and starts below `PREFIX_OFFSET`.
   */
  function OffsetMethodBytes(bytes: seq<byte>): Result<seq<byte>>
  {
    if |bytes| > 0 && bytes[0] < PREFIX_OFFSET then
      Ok([bytes[0] + PREFIX_OFFSET] + bytes[1..])
    else
      Err(UnencodableVariant)
  }

  /** `Item::encode_into`: fields verbatim, methods with the shifted discriminant. */
  function ItemEncode<F, M>(fenc: F -> seq<byte>, menc: M -> seq<byte>, item: Item<F, M>): Result<seq<byte>>
  {
    match item
    case Field(f) => Ok(fenc(f))
    case Method(m) => OffsetMethodBytes(menc(m))
  }

  /** `Item::encoding_length`: the inner length, with no account of the offset. */
  function ItemEncodingLength<F, M>(fenc: F -> seq<byte>, menc: M -> seq<byte>, item: Item<F, M>): nat
  {
    match item
    case Field(f) => |fenc(f)|
    case Method(m) => |menc(m)|
  }

  /**
   * `Item::decode`: one byte is taken from the reader.  Below
   * `PREFIX_OFFSET` a field is decoded from that byte chained in front of
   * the rest; otherwise a method is decoded from the byte shifted down,
   * chained in front of the rest.  The chained byte lives only in the
   * inner decoder's reader: if the inner decoder reads nothing, it is
   * dropped, and the reader stays just after the prefix byte.
   */
  function ItemDecode<F, M>(fdec: seq<byte> -> Result<Decoded<F>>, mdec: seq<byte> -> Result<Decoded<M>>,
                            input: seq<byte>): (r: Result<Decoded<Item<F, M>>>)
    ensures |input| == 0 ==> r == Err(Io(UnexpectedEof))
    ensures r.Ok? ==> |r.value.rest| < |input|
    ensures r.Ok? && input[0] < PREFIX_OFFSET ==>
      r.value.value.Field? && fdec(input).Ok? && r.value.rest == AfterChained(input, fdec(input).value.rest)
    ensures r.Ok? && input[0] >= PREFIX_OFFSET ==>
      var shifted := [input[0] - PREFIX_OFFSET] + input[1..];
      r.value.value.Method? && mdec(shifted).Ok? && r.value.rest == AfterChained(input, mdec(shifted).value.rest)
  {
    if |input| == 0 then
      Err(Io(UnexpectedEof))
    else if input[0] < PREFIX_OFFSET then
      var d :- fdec(input);
      Ok(Decoded(Field(d.value), AfterChained(input, d.rest)))
    else
      var d :- mdec([input[0] - PREFIX_OFFSET] + input[1..]);
      Ok(Decoded(Method(d.value), AfterChained(input, d.rest)))
  }

  /**
   * Where the real reader stands once the inner decoder, reading the
   * prefix byte chained in front of `input[1..]`, has left `innerRest`:
   * there, when it read past the prefix byte; just after the prefix byte,
   * when it read nothing.
   */
  function AfterChained(input: seq<byte>, innerRest: seq<byte>): (rest: seq<byte>)
    requires |input| > 0
    ensures |rest| < |input|
    ensures |innerRest| < |input| ==> rest == innerRest
  {
    if |innerRest| < |input| then innerRest else input[1..]
  }

  /** The decoder of `()`, the default `FieldCall` and `MethodCall`: it reads nothing. */
  function UnitDecode(input: seq<byte>): Result<Decoded<()>>
  {
    Ok(Decoded((), input))
  }

  /**
   * With `()` on both sides, the prefix byte is consumed and nothing else:
   * `05 07` is a field call and `45 07` a method call, each leaving `07`.
   */
  lemma UnitItemDecode()
    ensures ItemDecode(UnitDecode, UnitDecode, [0x05, 0x07]) == Ok(Decoded(Field(()), [0x07]))
    ensures ItemDecode(UnitDecode, UnitDecode, [0x45, 0x07]) == Ok(Decoded(Method(()), [0x07]))
  {
    assert [0x05, 0x07][1..] == [0x07];
    assert [0x45, 0x07][1..] == [0x07];
  }

  /** `Item::encode_into` for a method, rewriting the first byte of its encoding in place. */
  method EncodeMethodInPlace(bytes: array<byte>) returns (r: Result<()>)
    modifies bytes
    ensures OffsetMethodBytes(old(bytes[..])).Ok? ==> r.Ok? && bytes[..] == OffsetMethodBytes(old(bytes[..])).value
    ensures OffsetMethodBytes(old(bytes[..])).Err? ==> r == Err(UnencodableVariant) && bytes[..] == old(bytes[..])
  {
    if bytes.Length > 0 && bytes[0] < PREFIX_OFFSET {
      bytes[0] := bytes[0] + PREFIX_OFFSET;
      r := Ok(());
    } else {
      r := Err(UnencodableVariant);
    }
  }

  /** A method can be sent exactly when its encoding is non-empty and starts below 0x40. */
  lemma MethodEncodable<F, M>(fenc: F -> seq<byte>, menc: M -> seq<byte>, m: M)
    ensures ItemEncode(fenc, menc, Method(m)).Ok? <==> |menc(m)| > 0 && menc(m)[0] < PREFIX_OFFSET
    ensures ItemEncode(fenc, menc, Method(m)).Err? ==> ItemEncode(fenc, menc, Method(m)).error == UnencodableVariant
  {
  }

  /**
   * The two discriminant ranges do not overlap: an encoded method starts
   * with a byte in [0x40, 0x80), and decoding yields a field exactly when
   * the first byte is below 0x40.
   */
  lemma DiscriminantRanges<F, M>(fenc: F -> seq<byte>, menc: M -> seq<byte>,
                                 fdec: seq<byte> -> Result<Decoded<F>>, mdec: seq<byte> -> Result<Decoded<M>>,
                                 m: M, input: seq<byte>)
    ensures ItemEncode(fenc, menc, Method(m)).Ok? ==>
      var bs := ItemEncode(fenc, menc, Method(m)).value;
      |bs| > 0 && PREFIX_OFFSET <= bs[0] < 0x80
    ensures ItemDecode(fdec, mdec, input).Ok? ==>
      (ItemDecode(fdec, mdec, input).value.value.Field? <==> input[0] < PREFIX_OFFSET)
  {
  }

  /** The offset does not change the length the encoder announces. */
  lemma EncodingLengthUnchanged<F, M>(fenc: F -> seq<byte>, menc: M -> seq<byte>, item: Item<F, M>)
    ensures ItemEncode(fenc, menc, item).Ok? ==>
      |ItemEncode(fenc, menc, item).value| == ItemEncodingLength(fenc, menc, item)
  {
  }

  /** A method whose own codec round-trips also round-trips as an `Item`. */
  lemma MethodRoundTrip<F, M>(fenc: F -> seq<byte>, menc: M -> seq<byte>,
                              fdec: seq<byte> -> Result<Decoded<F>>, mdec: seq<byte> -> Result<Decoded<M>>,
                              m: M, rest: seq<byte>)
    requires mdec(menc(m) + rest) == Ok(Decoded(m, rest))
    requires ItemEncode(fenc, menc, Method(m)).Ok?
    ensures ItemDecode(fdec, mdec, ItemEncode(fenc, menc, Method(m)).value + rest) == Ok(Decoded(Method(m), rest))
  {
    var bs := menc(m);
    var input := ItemEncode(fenc, menc, Method(m)).value + rest;
    assert [input[0] - PREFIX_OFFSET] + input[1..] == bs + rest;
    assert |rest| < |input|;
  }

  /** A field whose encoding starts below 0x40 and whose codec round-trips round-trips as an `Item`. */
  lemma FieldRoundTrip<F, M>(fenc: F -> seq<byte>, menc: M -> seq<byte>,
                             fdec: seq<byte> -> Result<Decoded<F>>, mdec: seq<byte> -> Result<Decoded<M>>,
                             f: F, rest: seq<byte>)
    requires fdec(fenc(f) + rest) == Ok(Decoded(f, rest))
    requires |fenc(f)| > 0 && fenc(f)[0] < PREFIX_OFFSET
    ensures ItemDecode(fdec, mdec, ItemEncode(fenc, menc, Field(f)).value + rest) == Ok(Decoded(Field(f), rest))
  {
  }

  /**
   * Field encodings are not checked: a field whose encoding starts at or
   * above 0x40 comes back as a method (or not at all), and a field with an
   * empty encoding cannot be decoded from an otherwise empty input.
   */
  lemma FieldMisread<F, M>(fenc: F -> seq<byte>, menc: M -> seq<byte>,
                           fdec: seq<byte> -> Result<Decoded<F>>, mdec: seq<byte> -> Result<Decoded<M>>,
                           f: F, rest: seq<byte>)
    ensures |fenc(f)| > 0 && fenc(f)[0] >= PREFIX_OFFSET && ItemDecode(fdec, mdec, fenc(f) + rest).Ok? ==>
      ItemDecode(fdec, mdec, ItemEncode(fenc, menc, Field(f)).value + rest).value.value.Method?
    ensures fenc(f) == [] ==>
      ItemDecode(fdec, mdec, ItemEncode(fenc, menc, Field(f)).value) == Err(Io(UnexpectedEof))
  {
  }
}
