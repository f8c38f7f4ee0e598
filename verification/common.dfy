/**
 * Shared vocabulary of the match server and its client: optional values
 * (JavaScript's `null`/`undefined`), the two player slots, and the disk-count
 * range the match schema enforces.
 */
module Common {

  /** A value that may be absent; `None` stands for JavaScript `null` or `undefined`. */
  datatype Option<+T> = None | Some(value: T)

  /** The two player positions of a match, `'player1'` and `'player2'` in the source. */
  datatype Side = Player1 | Player2 {
    /** The other player's position. */
    function Opposite(): Side {
      match this
      case Player1 => Player2
      case Player2 => Player1
    }
  }

  /** The disk counts a stored match may have (`min: 3, max: 8` in the match schema). */
  type DiskCount = n: int | 3 <= n <= 8 witness 4

  /**
   * JavaScript truthiness of an optional string: `null`, `undefined` and `""`
   * are falsy, every other string is truthy.
   */
  predicate Truthy(s: Option<string>) {
    s.Some? && s.value != ""
  }

  function Min(a: int, b: int): int {
    if a <= b then a else b
  }
}
