/** `parse_component_config`: reads a component written as "type:name:replicas". */
module ComponentConfig {
  import opened Wrappers
  import opened Text

  datatype Config = Config(typeName: string, name: string, replicas: int)

  /** The ValueError `int()` raises, carrying the offending piece. */
  datatype ParseError = InvalidLiteral(literal: string)

  /** Split on ':'; the first piece is the type, the second the name (default
      "unnamed"), the third the replica count (default 1); further pieces are
      ignored. A third piece that is not an integer literal is an error. */
  function ParseComponentConfig(s: string): (r: Result<Config, ParseError>)
    ensures r.Success? ==> ':' !in r.value.typeName && r.value.typeName <= s
    ensures r.Failure? ==> ParseInt(r.error.literal).None? && ':' !in r.error.literal
  {
    var parts := Split(s, ':');
    var typeName := if |parts| > 0 then parts[0] else "";
    var name := if |parts| > 1 then parts[1] else "unnamed";
    PartsPrefix(s, ':');
    if |parts| > 2 then
      match ParseInt(parts[2])
      case Some(n) => Success(Config(typeName, name, n))
      case None => Failure(InvalidLiteral(parts[2]))
    else Success(Config(typeName, name, 1))
  }

  /** The first piece of a split is a prefix of the string. */
  lemma PartsPrefix(s: string, sep: char)
    ensures Split(s, sep)[0] <= s
  {
    var parts := Split(s, sep);
    JoinSplit(s, sep);
    if |parts| > 1 {
      assert Join(parts, sep) == parts[0] + ([sep] + Join(parts[1..], sep));
    }
  }

  /** The empty string is a component of empty type named "unnamed". */
  lemma ParseEmpty()
    ensures ParseComponentConfig("") == Success(Config("", "unnamed", 1))
  {
  }

  /** A type alone gets the default name and a single replica. */
  lemma ParseTypeOnly(t: string)
    requires ':' !in t
    ensures ParseComponentConfig(t) == Success(Config(t, "unnamed", 1))
  {
    SplitFree(t, ':');
  }

  /** "type:name" gets a single replica. */
  lemma ParseTypeAndName(t: string, n: string)
    requires ':' !in t && ':' !in n
    ensures ParseComponentConfig(t + ":" + n) == Success(Config(t, n, 1))
  {
    SplitCons(t, n, ':');
    SplitFree(n, ':');
  }

  /** "type:name:k" reads back as (type, name, k). */
  lemma ParseRoundTrip(t: string, n: string, k: nat)
    requires ':' !in t && ':' !in n
    ensures ParseComponentConfig(t + ":" + n + ":" + NatToString(k)) == Success(Config(t, n, k))
  {
    var d := NatToString(k);
    assert ':' !in d by {
      forall i | 0 <= i < |d| ensures d[i] != ':' { assert IsDigit(d[i]); }
    }
    ThreePieces(t, n, d);
    ParseIntOfNatToString(k);
  }

  /** Three separator-free pieces joined by ':' split back into themselves. */
  lemma ThreePieces(t: string, n: string, d: string)
    requires ':' !in t && ':' !in n && ':' !in d
    ensures Split(t + ":" + n + ":" + d, ':') == [t, n, d]
  {
    assert t + ":" + n + ":" + d == t + [':'] + (n + [':'] + d);
    SplitCons(t, n + [':'] + d, ':');
    SplitCons(n, d, ':');
    SplitFree(d, ':');
  }

  /** Pieces after the third one change nothing. */
  lemma ParseIgnoresExtraPieces(t: string, n: string, d: string, rest: string)
    requires ':' !in t && ':' !in n && ':' !in d
    ensures ParseComponentConfig(t + ":" + n + ":" + d + ":" + rest) ==
            ParseComponentConfig(t + ":" + n + ":" + d)
  {
    assert t + ":" + n + ":" + d + ":" + rest == t + [':'] + (n + [':'] + (d + [':'] + rest));
    SplitCons(t, n + [':'] + (d + [':'] + rest), ':');
    SplitCons(n, d + [':'] + rest, ':');
    SplitCons(d, rest, ':');
    ThreePieces(t, n, d);
  }

  /** A replica count that is an integer literal, signed or zero-padded
      included, becomes the replica count. */
  lemma ParseGoodReplicas(t: string, n: string, d: string)
    requires ':' !in t && ':' !in n && ':' !in d
    requires ParseInt(d).Some?
    ensures ParseComponentConfig(t + ":" + n + ":" + d) == Success(Config(t, n, ParseInt(d).value))
  {
    ThreePieces(t, n, d);
  }

  /** A replica count that is not an integer literal is the ValueError path. */
  lemma ParseBadReplicas(t: string, n: string, d: string)
    requires ':' !in t && ':' !in n && ':' !in d
    requires ParseInt(d).None?
    ensures ParseComponentConfig(t + ":" + n + ":" + d) == Failure(InvalidLiteral(d))
  {
    ThreePieces(t, n, d);
  }
}
