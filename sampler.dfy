/** Sampler presets: the WebGPU sampler descriptor for each named kind. */
module Sampler {
  import opened Wrappers
  import opened Js

  datatype SamplerDescriptor = SamplerDescriptor(
    addressModeU: string, addressModeV: string, addressModeW: string,
    magFilter: string, minFilter: string,
    mipmapFilter: Option<string>, lodMinClamp: Option<int>, lodMaxClamp: Option<int>)

  datatype SamplerError = UnknownPreset(kind: Value)   // "Unknown sampler preset: <kind>"

  const DEFAULT_KIND := "linearClamp"

  const KINDS: set<string> := {"linearClamp", "linearRepeat", "nearestClamp", "nearestRepeat", "mipmapLinear"}

  /** The kinds whose addressing repeats; the others clamp to the edge. */
  predicate IsRepeatKind(k: string) { k == "linearRepeat" || k == "nearestRepeat" }

  /** The kinds that filter to the nearest texel; the others filter linearly. */
  predicate IsNearestKind(k: string) { k == "nearestClamp" || k == "nearestRepeat" }

  /** The preset name `kind` selects: `undefined` selects the default. */
  function KindName(kind: Value): Option<string>
  {
    match kind
    case Undefined => Some(DEFAULT_KIND)
    case Str(s) => Some(s)
    case _ => None
  }

  function Clamp(mag: string, min: string): SamplerDescriptor
  {
    SamplerDescriptor("clamp-to-edge", "clamp-to-edge", "clamp-to-edge", mag, min, None, None, None)
  }

  function Repeat(mag: string, min: string): SamplerDescriptor
  {
    SamplerDescriptor("repeat", "repeat", "repeat", mag, min, None, None, None)
  }

  /** `createSamplerPreset(kind)`. */
  function CreateSamplerPreset(kind: Value): (r: Result<SamplerDescriptor, SamplerError>)
    ensures r.Err? <==> KindName(kind).None? || KindName(kind).value !in KINDS
    ensures r.Err? ==> r.error == UnknownPreset(kind)
    ensures r.Ok? ==> var k := KindName(kind).value; var d := r.value;
              && d.addressModeU == d.addressModeV == d.addressModeW
                   == (if IsRepeatKind(k) then "repeat" else "clamp-to-edge")
              && d.magFilter == d.minFilter == (if IsNearestKind(k) then "nearest" else "linear")
              && (d.mipmapFilter.Some? <==> k == "mipmapLinear")
              && (d.lodMinClamp.Some? <==> k == "mipmapLinear")
              && (d.lodMaxClamp.Some? <==> k == "mipmapLinear")
              && (k == "mipmapLinear" ==>
                    d.mipmapFilter == Some("linear") && d.lodMinClamp == Some(0) && d.lodMaxClamp == Some(32))
  {
    var name := KindName(kind);
    if name.None? then Err(UnknownPreset(kind))
    else match name.value
      case "linearClamp" => Ok(Clamp("linear", "linear"))
      case "linearRepeat" => Ok(Repeat("linear", "linear"))
      case "nearestClamp" => Ok(Clamp("nearest", "nearest"))
      case "nearestRepeat" => Ok(Repeat("nearest", "nearest"))
      case "mipmapLinear" =>
        Ok(SamplerDescriptor("clamp-to-edge", "clamp-to-edge", "clamp-to-edge", "linear", "linear",
                             Some("linear"), Some(0), Some(32)))
      case _ => Err(UnknownPreset(kind))
  }

  /** The default is the linear clamping preset. */
  lemma DefaultIsLinearClamp()
    ensures CreateSamplerPreset(Undefined) == CreateSamplerPreset(Str("linearClamp"))
    ensures CreateSamplerPreset(Undefined) == Ok(Clamp("linear", "linear"))
  {
  }

  /** The five presets differ pairwise: no two kinds share a descriptor. */
  lemma PresetsDistinct(a: string, b: string)
    requires a in KINDS && b in KINDS && a != b
    ensures CreateSamplerPreset(Str(a)) != CreateSamplerPreset(Str(b))
  {
  }

  /** Names are case-sensitive and a non-string kind is unknown. */
  lemma UnknownKinds()
    ensures CreateSamplerPreset(Str("LinearClamp")) == Err(UnknownPreset(Str("LinearClamp")))
    ensures CreateSamplerPreset(Null) == Err(UnknownPreset(Null))
    ensures CreateSamplerPreset(Number(Finite(0.0))).Err?
  {
  }
}
