/** The JSON configuration both agents read at start-up. The document is reduced to its
    top-level members and the kind of each value; a missing or mistyped required member
    is fatal, reported under the first such key in the order the constructor checks. */
module Config {
  import opened Bytes

  /** A JSON value as far as the checks can tell: a number written as an integer (`JInt`)
      or otherwise (`JReal`), a string, a boolean, or something else. */
  datatype Json = JNull | JBool(b: bool) | JInt(i: int) | JReal | JString(s: string) | JArray | JObject

  type Document = map<string, Json>

  datatype Kind = Number | Text | Boolean

  predicate IsKind(v: Json, k: Kind)
  {
    match k
    case Number => v.JInt? || v.JReal?
    case Text => v.JString?
    case Boolean => v.JBool?
  }

  /** A required member: its key and the kind its value must have. */
  datatype Field = Field(key: string, kind: Kind)

  predicate Has(doc: Document, f: Field)
  {
    f.key in doc && IsKind(doc[f.key], f.kind)
  }

  const Common: seq<Field> :=
    [Field("server_port", Number), Field("password", Text), Field("timeout", Number), Field("server_ipv6", Boolean)]
  const ServerOnly: seq<Field> := [Field("dns_timeout", Number)]
  const ClientOnly: seq<Field> :=
    [Field("server", Text), Field("local_address", Text), Field("local_port", Number)]

  /** The members a mode requires, in the order they are checked. */
  function Required(server: bool): (fs: seq<Field>)
    ensures |fs| >= 4 && fs[..4] == Common
    ensures server ==> |fs| == 5 && fs[4..] == ServerOnly
    ensures !server ==> |fs| == 7 && fs[4..] == ClientOnly
  {
    Common + (if server then ServerOnly else ClientOnly)
  }

  /** Every required member is present with the right kind. */
  ghost predicate Complete(doc: Document, server: bool)
  {
    forall i :: 0 <= i < |Required(server)| ==> Has(doc, Required(server)[i])
  }

  /** `key` is the first required member, in checking order, that is missing or mistyped. */
  ghost predicate FirstMissing(doc: Document, server: bool, key: string)
  {
    exists i :: 0 <= i < |Required(server)| && Required(server)[i].key == key && !Has(doc, Required(server)[i])
      && forall j :: 0 <= j < i ==> Has(doc, Required(server)[j])
  }

  /** The outcome of the constructor: the process goes on, or dies naming a key. */
  datatype Verdict = Accepted | Rejected(key: string)

  /** The mode the constructor assumes when the caller gives none. */
  const DefaultServerMode: bool := true

  /** The constructor's checks, in their order; `server` is the constructor's mode flag. */
  function Validate(doc: Document, server: bool): (v: Verdict)
  {
    if !Has(doc, Field("server_port", Number)) then Rejected("server_port")
    else if !Has(doc, Field("password", Text)) then Rejected("password")
    else if !Has(doc, Field("timeout", Number)) then Rejected("timeout")
    else if !Has(doc, Field("server_ipv6", Boolean)) then Rejected("server_ipv6")
    else if server then
      if !Has(doc, Field("dns_timeout", Number)) then Rejected("dns_timeout") else Accepted
    else if !Has(doc, Field("server", Text)) then Rejected("server")
    else if !Has(doc, Field("local_address", Text)) then Rejected("local_address")
    else if !Has(doc, Field("local_port", Number)) then Rejected("local_port")
    else Accepted
  }

  /** A reference for the checks: the key of the first member of `fs` that is missing or
      mistyped. */
  function FirstFailing(doc: Document, fs: seq<Field>): (k: Option<string>)
    decreases |fs|
  {
    if fs == [] then None
    else if !Has(doc, fs[0]) then Some(fs[0].key)
    else FirstFailing(doc, fs[1..])
  }

  lemma {:induction false} FirstFailingSpec(doc: Document, fs: seq<Field>)
    ensures FirstFailing(doc, fs).None? <==> forall i :: 0 <= i < |fs| ==> Has(doc, fs[i])
    ensures FirstFailing(doc, fs).Some? ==>
      exists i :: 0 <= i < |fs| && fs[i].key == FirstFailing(doc, fs).value && !Has(doc, fs[i])
        && forall j :: 0 <= j < i ==> Has(doc, fs[j])
    decreases |fs|
  {
    if fs != [] && Has(doc, fs[0]) {
      FirstFailingSpec(doc, fs[1..]);
      if FirstFailing(doc, fs[1..]).Some? {
        var i :| 0 <= i < |fs[1..]| && fs[1..][i].key == FirstFailing(doc, fs[1..]).value && !Has(doc, fs[1..][i])
          && forall j :: 0 <= j < i ==> Has(doc, fs[1..][j]);
        assert fs[i + 1] == fs[1..][i];
        forall j | 0 <= j < i + 1 ensures Has(doc, fs[j]) {
          if j > 0 { assert fs[j] == fs[1..][j - 1]; }
        }
      } else {
        forall i | 0 <= i < |fs| ensures Has(doc, fs[i]) {
          if i > 0 { assert fs[i] == fs[1..][i - 1]; }
        }
      }
    } else if fs != [] {
      assert !Has(doc, fs[0]);
    }
  }

  /** No failing member means acceptance; otherwise the failing key is reported. */
  function VerdictOf(failing: Option<string>): (v: Verdict)
    ensures v.Accepted? <==> failing.None?
    ensures v.Rejected? ==> v.key == failing.value
  {
    if failing.None? then Accepted else Rejected(failing.value)
  }

  /** The constructor's chain of checks is the reference run over the required members. */
  lemma ValidateIsFirstFailing(doc: Document, server: bool)
    ensures Validate(doc, server) == VerdictOf(FirstFailing(doc, Required(server)))
  {
    var fs := Required(server);
    forall k | 0 <= k < |fs|
      ensures FirstFailing(doc, fs[k..]) == if !Has(doc, fs[k]) then Some(fs[k].key) else FirstFailing(doc, fs[k + 1..])
    {
      assert fs[k..][1..] == fs[k + 1..];
    }
    assert fs[0..] == fs && fs[|fs|..] == [];
    assert fs[0] == Field("server_port", Number) && fs[1] == Field("password", Text);
    assert fs[2] == Field("timeout", Number) && fs[3] == Field("server_ipv6", Boolean);
    if server {
      assert fs[4] == Field("dns_timeout", Number);
    } else {
      assert fs[4] == Field("server", Text) && fs[5] == Field("local_address", Text);
      assert fs[6] == Field("local_port", Number);
    }
  }

  /** A document is accepted exactly when it is complete for the mode, and a rejection
      names the first member that is missing or mistyped. */
  lemma ValidateChecksRequired(doc: Document, server: bool)
    ensures Validate(doc, server).Accepted? <==> Complete(doc, server)
    ensures Validate(doc, server).Rejected? ==> FirstMissing(doc, server, Validate(doc, server).key)
  {
    ValidateIsFirstFailing(doc, server);
    FirstFailingSpec(doc, Required(server));
  }

  /** Server mode never looks at the client's members, and client mode never looks at
      `dns_timeout`. */
  lemma ModesIgnoreOtherKeys(doc: Document, key: string, value: Json)
    ensures key in {"server", "local_address", "local_port"} ==> Validate(doc[key := value], true) == Validate(doc, true)
    ensures key == "dns_timeout" ==> Validate(doc[key := value], false) == Validate(doc, false)
  {
  }

  // ---------------------------------------------------------------------------
  // Start-up of the two agents.

  /** Start-up of either agent as written: both construct the configuration without a
      mode, so both are checked as a server's. */
  function Startup(doc: Document): (v: Verdict)
    ensures v.Accepted? <==> Complete(doc, true)
  {
    ValidateChecksRequired(doc, DefaultServerMode);
    Validate(doc, DefaultServerMode)
  }

  /** The local agent's start-up as intended: checked in client mode. */
  function ClientStartupFixed(doc: Document): (v: Verdict)
    ensures v.Accepted? <==> Complete(doc, false)
  {
    ValidateChecksRequired(doc, false);
    Validate(doc, false)
  }

  /** A complete client configuration without `dns_timeout` kills the local agent as
      written; checked in client mode it is accepted. */
  lemma ClientConfigRejected(doc: Document)
    requires Complete(doc, false) && "dns_timeout" !in doc
    ensures Startup(doc) == Rejected("dns_timeout")
    ensures ClientStartupFixed(doc) == Accepted
  {
    assert Has(doc, Required(false)[0]) && Has(doc, Required(false)[1]);
    assert Has(doc, Required(false)[2]) && Has(doc, Required(false)[3]);
  }

  /** As written, the local agent starts with a configuration that lacks the address it
      is about to read; checked in client mode it stops at that key. */
  lemma ServerAddressUnchecked()
    ensures var doc := map["server_port" := JInt(8388), "password" := JString("pw"), "timeout" := JInt(5),
                           "server_ipv6" := JBool(false), "dns_timeout" := JInt(3),
                           "local_address" := JString("127.0.0.1"), "local_port" := JInt(1080)];
      Startup(doc) == Accepted && "server" !in doc && ClientStartupFixed(doc) == Rejected("server")
  {
  }

  // ---------------------------------------------------------------------------
  // The port accessors.

  /** `GetInt`: defined for an integer that fits an `int`; anything else is an assertion
      failure in the JSON library. */
  function GetInt(v: Json): (r: Option<int>)
    ensures r.Some? <==> v.JInt? && -TwoTo31 <= v.i < TwoTo31
    ensures r.Some? ==> r.value == v.i
  {
    if v.JInt? && -TwoTo31 <= v.i < TwoTo31 then Some(v.i) else None
  }

  /** The port accessors `server_port` and `local_port`: the stored `int` cast to `int16_t`. */
  function PortOf(doc: Document, key: string): (p: Option<int>)
    ensures p.Some? <==> key in doc && GetInt(doc[key]).Some?
    ensures p.Some? ==> -0x8000 <= p.value < 0x8000 && (p.value - doc[key].i) % TwoTo16 == 0
  {
    if key in doc && GetInt(doc[key]).Some? then Some(ToInt16(GetInt(doc[key]).value)) else None
  }

  /** The callers store the accessor's value in a `uint16_t`: a valid port comes back
      unchanged, and any other `int` is silently reduced modulo 2^16. */
  lemma PortRoundTrip(doc: Document, key: string)
    requires key in doc && doc[key].JInt? && -TwoTo31 <= doc[key].i < TwoTo31
    ensures PortOf(doc, key).Some?
    ensures ToUint16(PortOf(doc, key).value) == doc[key].i % TwoTo16
    ensures 0 <= doc[key].i < TwoTo16 ==> ToUint16(PortOf(doc, key).value) == doc[key].i
  {
    var i := doc[key].i;
    var p := PortOf(doc, key).value;
    assert (p - i) % TwoTo16 == 0;
    assert p % TwoTo16 == i % TwoTo16 by {
      var k := (p - i) / TwoTo16;
      assert p == i + k * TwoTo16;
    }
  }

  /** Ports above 32767 pass through the accessor as negative numbers. */
  lemma HighPortIsNegative(doc: Document, key: string)
    requires key in doc && doc[key].JInt? && 0x8000 <= doc[key].i < TwoTo16
    ensures PortOf(doc, key) == Some(doc[key].i - TwoTo16)
  {
  }
}
