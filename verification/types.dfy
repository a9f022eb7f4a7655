/** The records exchanged between the editing tools and the frame processor. */
module Types {
  import opened Wrappers

  /** One still image of a clip. `data` is an opaque encoded payload; `id` is a display index. */
  datatype Frame = Frame(id: real, data: string, mimeType: string)

  /** A loosely typed parameter value, as a suggestion model produces it. */
  datatype Value = Num(n: real) | Str(s: string) | Bool(b: bool) | Obj(fields: map<string, Value>)

  /** The `params` object of an action; a key that is missing is `undefined`. */
  type Params = map<string, Value>

  /** One declarative editing instruction. */
  datatype Action = Action(tool: string, params: Params)

  /** The instruction handed to the image-edit callback; its wording is not modelled. */
  datatype Prompt =
    | OverlayText(text: Option<Value>, position: Value)
    | ApplyEffect(effect: Option<Value>)
    | ApplyGrading(preset: Option<Value>, intensity: Option<Value>)

  /** The external image-edit callback: the frame to edit, the instruction, and the frames before
      and after it (`null` at either end). `None` stands for a call that threw. */
  type Editor = (Frame, Prompt, Option<Frame>, Option<Frame>) -> Option<string>

  function Min(a: int, b: int): int { if a <= b then a else b }
  function Max(a: int, b: int): int { if a >= b then a else b }
  function MinReal(a: real, b: real): real { if a <= b then a else b }

  /** `p[k]`, with `None` for `undefined`. */
  function Field(p: Params, k: string): (r: Option<Value>)
    ensures r.Some? <==> k in p
    ensures r.Some? ==> r.value == p[k]
  {
    if k in p then Some(p[k]) else None
  }

  /** The field is absent or holds a number: the only shapes the processor reads without coercion. */
  predicate NumOrAbsent(p: Params, k: string) {
    k !in p || p[k].Num?
  }

  /** A numeric field, `None` when it is absent. */
  function NumField(p: Params, k: string): (r: Option<real>)
    requires NumOrAbsent(p, k)
    ensures r.Some? <==> k in p
    ensures r.Some? ==> p[k] == Num(r.value)
  {
    if k in p then Some(p[k].n) else None
  }

  /** JavaScript truthiness of a value. */
  predicate Truthy(v: Value) {
    match v
    case Num(n) => n != 0.0
    case Str(s) => s != ""
    case Bool(b) => b
    case Obj(_) => true
  }

  /** `p[k] || d` on a numeric field: an absent field or a zero falls back to `d`. */
  function NumOr(p: Params, k: string, d: real): (r: real)
    requires NumOrAbsent(p, k)
    ensures k in p && p[k] != Num(0.0) ==> p[k] == Num(r)
    ensures k !in p || p[k] == Num(0.0) ==> r == d
  {
    if k in p && p[k].n != 0.0 then p[k].n else d
  }

  /** `p[k] || d` on a field of any shape. */
  function ValueOr(p: Params, k: string, d: Value): (r: Value)
    ensures k in p && Truthy(p[k]) ==> r == p[k]
    ensures !(k in p && Truthy(p[k])) ==> r == d
  {
    if k in p && Truthy(p[k]) then p[k] else d
  }

  /** On a numeric field, the number shortcut `NumOr` is JavaScript's `||`: the field when it is
      truthy, the default otherwise. */
  lemma NumOrIsTruthyDefault(p: Params, k: string, d: real)
    requires NumOrAbsent(p, k)
    ensures Num(NumOr(p, k, d)) == ValueOr(p, k, Num(d))
  {
  }

  /** Frame ids are the positions 0 .. n-1. */
  predicate Dense(s: seq<Frame>) {
    forall i :: 0 <= i < |s| ==> s[i].id == i as real
  }

  /** Two frames carry the same image. */
  predicate SameImage(a: Frame, b: Frame) {
    a.data == b.data && a.mimeType == b.mimeType
  }

  /** `s.map((frame, index) => ({ ...frame, id: index }))`. */
  function Reindex(s: seq<Frame>): (r: seq<Frame>)
    ensures |r| == |s| && Dense(r)
    ensures forall i :: 0 <= i < |r| ==> SameImage(r[i], s[i])
  {
    seq(|s|, i requires 0 <= i < |s| => s[i].(id := i as real))
  }
}
