/**
 * The textual form of the logging threshold used in both configuration files:
 * a bijection between the six `LevelFilter` values and six lower-case names,
 * with case-insensitive decoding.
 */
module LogLevel {
  import opened Common

  datatype LevelFilter = Off | Error | Warn | Info | Debug | Trace

  /** The six accepted names, in the order of the enum. */
  const Names: seq<string> := ["off", "error", "warn", "info", "debug", "trace"]

  /** The error text a rejected name produces. */
  const InvalidLevel: string := "Invalid log level"

  /** ASCII lower-casing of one character. */
  function LowerChar(c: char): char {
    if 'A' <= c <= 'Z' then (c as int + 32) as char else c
  }

  predicate IsLower(s: string) {
    forall i :: 0 <= i < |s| ==> !('A' <= s[i] <= 'Z')
  }

  /** The lower-case form of a string (`str::to_lowercase` on ASCII). */
  function Lower(s: string): (r: string)
    ensures |r| == |s| && IsLower(r)
  {
    seq(|s|, i requires 0 <= i < |s| => LowerChar(s[i]))
  }

  lemma LowerOfLower(s: string)
    requires IsLower(s)
    ensures Lower(s) == s
  {
    assert forall i :: 0 <= i < |s| ==> Lower(s)[i] == s[i];
  }

  lemma LowerIdempotent(s: string)
    ensures Lower(Lower(s)) == Lower(s)
  {
    LowerOfLower(Lower(s));
  }

  /** The name written for a level. */
  function Serialize(level: LevelFilter): (name: string)
    ensures name in Names && IsLower(name)
  {
    match level
    case Off => "off"
    case Error => "error"
    case Warn => "warn"
    case Info => "info"
    case Debug => "debug"
    case Trace => "trace"
  }

  /**
   * Reads a level from its name, ignoring case. A name whose lower-case form
   * is none of the six is rejected with "Invalid log level".
   */
  function Deserialize(s: string): (r: Result<LevelFilter, string>)
    ensures r.Ok? <==> Lower(s) in Names
    ensures r.Err? ==> r.error == InvalidLevel
    ensures r.Ok? ==> Serialize(r.value) == Lower(s)
  {
    var name := Lower(s);
    if name == "off" then Ok(Off)
    else if name == "error" then Ok(Error)
    else if name == "warn" then Ok(Warn)
    else if name == "info" then Ok(Info)
    else if name == "debug" then Ok(Debug)
    else if name == "trace" then Ok(Trace)
    else Err(InvalidLevel)
  }

  /** Distinct levels are written as distinct names. */
  lemma SerializeInjective(a: LevelFilter, b: LevelFilter)
    ensures Serialize(a) == Serialize(b) ==> a == b
  {
  }

  /** Every level reads back as itself. */
  lemma RoundTrip(level: LevelFilter)
    ensures Deserialize(Serialize(level)) == Ok(level)
  {
    LowerOfLower(Serialize(level));
  }

  /** Two names that differ only in case decode identically. */
  lemma CaseInsensitive(s: string, t: string)
    requires Lower(s) == Lower(t)
    ensures Deserialize(s) == Deserialize(t)
  {
  }

  /** Decoding a name gives the same answer as decoding its lower-case form. */
  lemma DeserializeLowered(s: string)
    ensures Deserialize(s) == Deserialize(Lower(s))
  {
    LowerIdempotent(s);
    CaseInsensitive(s, Lower(s));
  }

  /** "WARN", "Warn" and "warn" all name the same level. */
  lemma WarnInAnyCase()
    ensures Deserialize("WARN") == Ok(Warn)
    ensures Deserialize("Warn") == Ok(Warn)
    ensures Deserialize("warn") == Ok(Warn)
  {
    assert Lower("WARN") == "warn" by {
      assert forall i :: 0 <= i < 4 ==> Lower("WARN")[i] == "warn"[i];
    }
    assert Lower("Warn") == "warn" by {
      assert forall i :: 0 <= i < 4 ==> Lower("Warn")[i] == "warn"[i];
    }
    LowerOfLower("warn");
  }
}
