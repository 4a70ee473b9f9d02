/** Cues, layers and the capability registry that decides what a cue becomes
    before it is scheduled (packages/avatar-sdk/src/capability-registry.ts). */
module AvatarCapabilities {
  import opened Wrappers

  datatype CueKind = StateCue | ExpressionCue | MotionCue | GazeCue | SpeechCue | OverrideCue

  datatype Layer = Attention | Speech | Emotion | Gesture | Gaze | Override

  datatype AvatarCue = AvatarCue(
    cueId: string,
    generationId: Option<string>,
    kind: CueKind,
    name: string,
    intensity: Option<real>,
    startAnchor: Option<string>,
    durationMs: Option<nat>,
    priority: Option<int>,
    interruptible: Option<bool>)

  datatype Warning = Warning(code: string, cueId: string)

  function CueLayer(kind: CueKind): Layer {
    match kind
    case StateCue => Attention
    case ExpressionCue => Emotion
    case MotionCue => Gesture
    case GazeCue => Gaze
    case SpeechCue => Speech
    case OverrideCue => Override
  }

  datatype Resolution = Resolution(cue: AvatarCue, layer: Layer, warning: Option<Warning>)

  datatype Capabilities = Capabilities(
    states: set<string>,
    expressions: set<string>,
    motions: set<string>,
    gazeTargets: set<string>,
    supportsLipsync: bool)
  {
    predicate Supports(cue: AvatarCue) {
      match cue.kind
      case StateCue => cue.name in states
      case ExpressionCue => cue.name in expressions
      case MotionCue => cue.name in motions
      case GazeCue => cue.name in gazeTargets
      case SpeechCue => cue.name == "speaking" && supportsLipsync
      case OverrideCue => cue.name == "interrupt"
    }

    /** A supported cue comes back as it is. An unavailable one becomes a state cue;
        only its kind, name and a missing duration change, so identity, generation,
        priority and interruptibility survive the fallback and the layer always
        belongs to the resolved kind. */
    function Resolve(cue: AvatarCue): (r: Resolution)
      ensures Supports(cue) ==> r.cue == cue
      ensures !Supports(cue) ==>
        r.layer == Attention && r.cue.name == (if "idle" in states then "idle" else "neutral") && r.cue.durationMs.Some?
      ensures cue.durationMs.Some? ==> r.cue.durationMs == cue.durationMs
      ensures match r.layer {
        case Attention => r.cue.kind == StateCue
        case Emotion => r.cue.kind == ExpressionCue
        case Gesture => r.cue.kind == MotionCue
        case Gaze => r.cue.kind == GazeCue
        case Speech => r.cue.kind == SpeechCue
        case Override => r.cue.kind == OverrideCue
      }
      ensures r.warning.None? <==> Supports(cue)
      ensures r.layer == Override <==> cue.kind == OverrideCue && cue.name == "interrupt"
      ensures r.cue.(kind := cue.kind, name := cue.name, durationMs := cue.durationMs) == cue
    {
      if Supports(cue) then
        Resolution(cue, CueLayer(cue.kind), None)
      else
        Resolution(
          cue.(kind := StateCue,
               name := if "idle" in states then "idle" else "neutral",
               durationMs := Some(cue.durationMs.GetOr(800))),
          Attention,
          Some(Warning("avatar.capability_missing", cue.cueId)))
    }
  }
}
