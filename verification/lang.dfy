/**
 * Java-level vocabulary shared by the model: null as `Option`, the two kinds
 * of exception the binder raises, Java's signed byte, and the blank-string
 * test (`StringUtils.isBlank`) every argument check relies on.
 */
module Lang {

  /** A Java reference that may be null: `None` is null. */
  datatype Option<T> = None | Some(value: T)

  /** The exception a call ends with, reduced to its kind. */
  datatype Error =
    | InvalidArgument  // a null, blank or empty argument refused before any work is done
    | IllegalState     // an engine failure, rethrown as an IllegalStateException

  /** A value-returning call that either returns or throws. */
  datatype Result<T> = Ok(value: T) | Err(error: Error)

  /** A call that returns `this` (or nothing) or throws. */
  datatype Outcome = Pass | Fail(error: Error)

  /** Java's `byte`: signed, eight bits. */
  newtype Byte = b: int | -128 <= b < 128

  /**
   * `Character.isWhitespace`: the ASCII controls TAB, LF, VT, FF, CR and
   * FS, GS, RS, US, plus the Unicode space, line and paragraph separators
   * except the three non-breaking spaces (U+00A0, U+2007, U+202F).
   */
  predicate IsWhitespace(c: char) {
    var n := c as int;
    || 0x09 <= n <= 0x0D
    || 0x1C <= n <= 0x20
    || n == 0x1680
    || (0x2000 <= n <= 0x200A && n != 0x2007)
    || n == 0x2028 || n == 0x2029
    || n == 0x205F || n == 0x3000
  }

  /** `StringUtils.isBlank`: null, empty, or whitespace only. */
  predicate IsBlank(s: Option<string>) {
    s.None? || forall i :: 0 <= i < |s.value| ==> IsWhitespace(s.value[i])
  }

  /**
   * `Map.get` on a map whose values may themselves be null: null both when
   * `key` is absent and when it is stored with a null value.
   */
  function Get<V>(m: map<string, Option<V>>, key: string): (r: Option<V>)
    ensures r.Some? <==> key in m && m[key].Some?
    ensures r.Some? ==> m[key] == r
  {
    if key in m then m[key] else None
  }

  /** `Map.get`: the value stored under `key`, or null when there is none. */
  function Lookup<V>(m: map<string, V>, key: string): (r: Option<V>)
    ensures r.Some? <==> key in m
    ensures r.Some? ==> r.value == m[key]
  {
    if key in m then Some(m[key]) else None
  }
}

/**
 * `java.util.Map<String, V>` as the source uses it: a mutable object that
 * several owners may share, so that adopting a map (rather than copying it)
 * is observable.
 */
module JavaMaps {

  class StringMap<V> {
    var entries: map<string, V>

    /** `new HashMap<String, V>()`. */
    constructor ()
      ensures entries == map[]
    {
      entries := map[];
    }

    /** `new HashMap<String, V>(source)`: a distinct object with the same entries. */
    constructor Copy(source: StringMap<V>)
      ensures entries == source.entries
    {
      entries := source.entries;
    }

    /** `Map.put`: insert or overwrite one entry. */
    method Put(key: string, value: V)
      modifies this
      ensures entries == old(entries)[key := value]
    {
      entries := entries[key := value];
    }
  }
}
