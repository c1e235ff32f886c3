/**
 * Values shared by the species reference-state thermo layer: the
 * parameterization flags, the errors the layer throws, a small model of the
 * XML tree the factory inspects, and the record one NASA-style polynomial
 * is stored as.
 */
module ThermoTypes {

  // Parameterization flags.  They are bit flags, so a sum of distinct flags
  // identifies the set of families it was built from.
  const NASA: int := 4
  const SHOMATE: int := 8
  const SIMPLE: int := 16

  /** One standard atmosphere in pascals, the reference pressure the factory installs. */
  const OneAtm: real := 101325.0

  datatype Option<T> = None | Some(value: T)

  /** The exceptions of the thermo layer, by class. */
  datatype ThermoError =
    | CanteraError(proc: string, msg: string)
    | UnknownSpeciesThermo(proc: string, stype: string)
    | UnknownSpeciesThermoType(proc: string, code: int)
    | UnknownSpeciesThermoModel(proc: string, species: string, model: string)
      // XML_Node::child on a name the node does not have
    | MissingChild(parent: string, child: string)
      // the source indexes past the end of an array here (undefined behaviour)
    | OutOfRange(what: string)

  datatype Result<T> = Ok(value: T) | Err(error: ThermoError) {
    predicate IsFailure() { Err? }
    function PropagateFailure<U>(): Result<U> requires Err? { Err(error) }
    function Extract(): T requires Ok? { value }
  }

  /**
   * An XML element: its name, its string attributes, its numeric attributes
   * (already converted, e.g. Tmin, Tmax, P0), the numbers of its text body
   * (a floatArray's contents) and its child elements.
   */
  datatype XmlNode = XmlNode(
    name: string,
    attribs: map<string, string>,
    nums: map<string, real>,
    values: seq<real>,
    children: seq<XmlNode>)

  /** node[key]: a missing attribute reads as the empty string. */
  function Attr(n: XmlNode, key: string): string {
    if key in n.attribs then n.attribs[key] else ""
  }

  /** fpValue(node[key]): a missing numeric attribute reads as 0. */
  function Num(n: XmlNode, key: string): real {
    if key in n.nums then n.nums[key] else 0.0
  }

  predicate HasChild(n: XmlNode, name: string) {
    exists i :: 0 <= i < |n.children| && n.children[i].name == name
  }

  /** The first element of cs named name, if there is one. */
  function FindChild(cs: seq<XmlNode>, name: string): (r: Option<XmlNode>)
    ensures r.Some? <==> exists i :: 0 <= i < |cs| && cs[i].name == name
    ensures r.Some? ==> r.value.name == name && r.value in cs
  {
    if cs == [] then None
    else if cs[0].name == name then Some(cs[0])
    else
      var r := FindChild(cs[1..], name);
      assert forall i :: 1 <= i < |cs| ==> cs[i] == cs[1..][i - 1];
      r
  }

  /** node.child(name): the first child with that name. */
  function Child(n: XmlNode, name: string): (c: XmlNode)
    requires HasChild(n, name)
    ensures c.name == name && c in n.children
  {
    FindChild(n.children, name).value
  }

  /** The number read from a leaf element's text (0 for an empty text). */
  function LeafValue(n: XmlNode): real {
    if |n.values| > 0 then n.values[0] else 0.0
  }

  function Abs(x: real): real { if x < 0.0 then -x else x }
  function Max(a: real, b: real): real { if a > b then a else b }
  function Min(a: real, b: real): real { if a < b then a else b }

  /**
   * std::vector::resize(n, x): the first min(|v|, n) entries are kept and
   * any new tail entry is x.
   */
  function Resized(v: seq<real>, n: nat, x: real): (r: seq<real>)
    ensures |r| == n
    ensures forall k :: 0 <= k < n && k < |v| ==> r[k] == v[k]
    ensures forall k :: |v| <= k < n ==> r[k] == x
  {
    if n <= |v| then v[..n] else v + seq(n - |v|, _ => x)
  }

  /** int(x) in C++: conversion truncating toward zero. */
  function Trunc(x: real): int {
    if x >= 0.0 then x.Floor else -((-x).Floor)
  }

  /** Truncation moves toward zero by less than one. */
  lemma TruncTowardZero(x: real)
    ensures -1.0 < x - Trunc(x) as real < 1.0
    ensures x >= 0.0 ==> 0 <= Trunc(x) && Trunc(x) as real <= x
    ensures x < 0.0 ==> Trunc(x) <= 0 && x <= Trunc(x) as real
  {
  }

  function LowerChar(c: char): char {
    if 'A' <= c <= 'Z' then (c as int + 32) as char else c
  }

  /** Cantera's lowercase(): ASCII upper-case letters mapped to lower case. */
  function Lower(s: string): (r: string)
    ensures |r| == |s|
    ensures forall i :: 0 <= i < |s| ==> r[i] == LowerChar(s[i])
  {
    seq(|s|, i requires 0 <= i < |s| => LowerChar(s[i]))
  }

  /**
   * The arguments of one SpeciesThermo::install call: species name and
   * index, parameterization flag, coefficient array, validity range and
   * reference pressure.
   */
  datatype InstallCall = InstallCall(
    name: string, k: nat, kind: int, coeffs: seq<real>,
    tmin: real, tmax: real, p0: real)

  /**
   * One NasaPoly1: a seven-coefficient polynomial for species index over
   * [tmin, tmax] at reference pressure p0.  Its evaluation is not modelled.
   */
  datatype NasaPoly = NasaPoly(index: nat, tmin: real, tmax: real, p0: real, coeffs: seq<real>)

  /** What reportParams writes back: the flag, the coefficients and the range. */
  datatype Params = Params(kind: int, coeffs: seq<real>, tmin: real, tmax: real, p0: real)
}
