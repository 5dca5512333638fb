/** Values shared by the dashboard client and the registry server. */
module Common {

  /** A value that may be absent: a missing JSON key, a failed fetch, a `null` result. */
  datatype Option<+T> = None | Some(value: T) {
    /** The value, or `default` when absent (JavaScript `a || b`, Python `d.get(k, default)`). */
    function GetOr(default: T): T {
      match this
      case Some(v) => v
      case None => default
    }
  }

  /** An outcome that is either a value or an error. */
  datatype Result<+T, +E> = Ok(value: T) | Err(error: E)

  /** Where a widget sits on the dashboard, in CSS pixels. */
  datatype Position = Position(x: real, y: real, width: real, height: real)

  /** A registered widget type, as the registry file's `widgetTypes` list holds it. */
  datatype TypeEntry = TypeEntry(id: string, name: string, description: string)

  /** One draw of `Math.random()`: a number in [0, 1). */
  type UnitReal = r: real | 0.0 <= r < 1.0

  /**
   * The placement the client gives a widget whose record carries none:
   * 100 px plus a random offset below 100 px on each axis, 300 by 200 px.
   */
  function RandomPlacement(rx: UnitReal, ry: UnitReal): (p: Position)
    ensures 100.0 <= p.x < 200.0 && 100.0 <= p.y < 200.0
    ensures p.width == 300.0 && p.height == 200.0
  {
    Position(100.0 + rx * 100.0, 100.0 + ry * 100.0, 300.0, 200.0)
  }
}
