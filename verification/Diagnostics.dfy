/** The search of app/api/transaction/submit/route.ts for the hash a verifier call was given. */
module Diagnostics {
  import opened Bytes

  /** What scValToNative can return: strings, byte arrays, arrays, plain objects (their values in enumeration
      order), and everything that holds no bytes. */
  datatype Native =
    | Undefined
    | Scalar
    | Str(s: string)
    | ByteArray(b: seq<byte>)
    | List(items: seq<Native>)
    | Object(values: seq<Native>)

  function Size(n: Native): nat {
    match n
    case List(items) => 1 + SizeAll(items)
    case Object(values) => 1 + SizeAll(values)
    case ByteArray(_) => 2
    case _ => 1
  }

  function SizeAll(ns: seq<Native>): nat {
    if ns == [] then 0 else Size(ns[0]) + SizeAll(ns[1..])
  }

  lemma {:induction false} ElementIsSmaller(ns: seq<Native>, i: nat)
    requires i < |ns|
    ensures Size(ns[i]) <= SizeAll(ns)
  {
    if i > 0 {
      ElementIsSmaller(ns[1..], i - 1);
    }
  }

  lemma ElementsAreSmaller(ns: seq<Native>)
    ensures forall i :: 0 <= i < |ns| ==> Size(ns[i]) <= SizeAll(ns)
  {
    forall i | 0 <= i < |ns| {
      ElementIsSmaller(ns, i);
    }
  }

  // ---------------------------------------------------------------------------------------------
  // The specification: 32-byte leaves in preorder
  // ---------------------------------------------------------------------------------------------

  function Leaves(n: Native): seq<seq<byte>> {
    match n
    case ByteArray(b) => if |b| == 32 then [b] else []
    case List(items) => LeavesAll(items)
    case Object(values) => LeavesAll(values)
    case _ => []
  }

  function LeavesAll(ns: seq<Native>): seq<seq<byte>> {
    if ns == [] then [] else Leaves(ns[0]) + LeavesAll(ns[1..])
  }

  function FirstHex(leaves: seq<seq<byte>>): Option<string> {
    if leaves == [] then None else Some(ToHex(leaves[0]))
  }

  lemma {:induction false} LeavesAllAppend(a: seq<Native>, b: seq<Native>)
    ensures LeavesAll(a + b) == LeavesAll(a) + LeavesAll(b)
  {
    if a == [] {
      assert a + b == b;
    } else {
      assert (a + b)[0] == a[0] && (a + b)[1..] == a[1..] + b;
      LeavesAllAppend(a[1..], b);
      Regroup(Leaves(a[0]), LeavesAll(a[1..]), LeavesAll(b));
    }
  }

  lemma PrefixAt(ns: seq<Native>, i: nat)
    requires i < |ns| && LeavesAll(ns[..i]) == []
    ensures LeavesAll(ns[..i + 1]) == Leaves(ns[i])
  {
    LeavesAllAppend(ns[..i], [ns[i]]);
    LeavesOfOne(ns[i]);
    assert ns[..i + 1] == ns[..i] + [ns[i]];
  }

  /** If nothing is found before position i, what is found at i is found first. */
  lemma FirstAt(ns: seq<Native>, i: nat)
    requires i < |ns| && LeavesAll(ns[..i]) == []
    ensures LeavesAll(ns[..i + 1]) == Leaves(ns[i])
    ensures Leaves(ns[i]) != [] ==> FirstHex(LeavesAll(ns)) == FirstHex(Leaves(ns[i]))
  {
    PrefixAt(ns, i);
    var before, after := ns[..i + 1], ns[i + 1..];
    LeavesAllAppend(before, after);
    assert ns == before + after;
  }

  lemma LeavesOfOne(n: Native)
    ensures LeavesAll([n]) == Leaves(n)
  {
    assert LeavesAll([n]) == Leaves(n) + LeavesAll([n][1..]);
  }

  // ---------------------------------------------------------------------------------------------
  // The search
  // ---------------------------------------------------------------------------------------------

  /** Object.values: the elements of an array and of a byte array count as values too. */
  function ObjectValues(n: Native): (values: seq<Native>)
    ensures forall i :: 0 <= i < |values| ==> Size(values[i]) < Size(n)
    ensures !n.ByteArray? ==> LeavesAll(values) == Leaves(n)
  {
    match n
    case List(items) => ElementsAreSmaller(items); items
    case Object(values) => ElementsAreSmaller(values); values
    case ByteArray(b) => seq(|b|, _ => Scalar)
    case _ => []
  }

  /** bytes32HexFromNative. Arrays are walked as arrays and, if that finds nothing, once more as objects. */
  method Bytes32HexFromNative(native: Native) returns (h: Option<string>)
    ensures h == FirstHex(Leaves(native))
    decreases Size(native)
  {
    if native.ByteArray? && |native.b| == 32 {
      return Some(ToHex(native.b));
    }
    if native.List? {
      for i := 0 to |native.items|
        invariant LeavesAll(native.items[..i]) == []
      {
        ElementIsSmaller(native.items, i);
        var found := Bytes32HexFromNative(native.items[i]);
        FirstAt(native.items, i);
        if found.Some? {
          return found;
        }
      }
      assert native.items[..|native.items|] == native.items;
    }
    if native.List? || native.Object? || native.ByteArray? {
      var values := ObjectValues(native);
      for i := 0 to |values|
        invariant LeavesAll(values[..i]) == []
      {
        var found := Bytes32HexFromNative(values[i]);
        FirstAt(values, i);
        if found.Some? {
          return found;
        }
      }
      assert values[..|values|] == values;
    }
    return None;
  }

  /** A diagnostic event as the loop sees it: unparsable, of a kind without this body, or topics and data. */
  datatype Event = Unreadable | NoBody | Body(topics: seq<Native>, data: Native)

  predicate IsVerifyCall(e: Event, verifier: string) {
    e.Body? && Str("fn_call") in e.topics && Str("verify") in e.topics && Str(verifier) in e.topics
  }

  predicate Hits(e: Event, verifier: string) {
    IsVerifyCall(e, verifier) && Leaves(e.data) != []
  }

  /** All three topics are needed, in any order and among others: calls of other contracts, other calls and other events
      of the verifier are passed over. */
  lemma TopicsOfAHit(data: Native, verifier: string, other: string)
    requires Leaves(data) != [] && verifier !in {"fn_call", "verify", other}
    ensures Hits(Body([Str(verifier), Undefined, Str("verify"), Str("fn_call")], data), verifier)
    ensures !Hits(Body([Str("fn_call"), Str("verify"), Str(other)], data), verifier)
    ensures !Hits(Body([Str("fn_call"), Str(verifier), Str("add_signer")], data), verifier)
    ensures !Hits(Body([Str("fn_return"), Str(verifier), Str("verify")], data), verifier)
  {
    hide Leaves;
    assert "add_signer"[0] != "verify"[0] && |"fn_return"| != |"fn_call"|;
    assert "add_signer" != "verify" && "fn_return" != "fn_call" && "fn_call" != "verify";
    var hit := [Str(verifier), Undefined, Str("verify"), Str("fn_call")];
    assert hit[0] in hit && hit[2] in hit && hit[3] in hit;
  }

  /** extractVerifierHashHexFromDiagnostics: the first leaf of the first verify call that has one; nothing exactly
      when there is none. Anything but an array of events counts as no events. */
  method ExtractVerifierHash(diagnostics: Option<seq<Event>>, verifier: string) returns (h: Option<string>)
    ensures diagnostics.None? ==> h.None?
    ensures diagnostics.Some? ==> var events := diagnostics.value;
              (h.None? <==> forall i :: 0 <= i < |events| ==> !Hits(events[i], verifier))
    ensures diagnostics.Some? && h.Some? ==> var events := diagnostics.value;
              exists i :: 0 <= i < |events| && Hits(events[i], verifier)
                       && (forall j :: 0 <= j < i ==> !Hits(events[j], verifier))
                       && h == Some(ToHex(Leaves(events[i].data)[0]))
  {
    var events := if diagnostics.Some? then diagnostics.value else [];
    for i := 0 to |events|
      invariant forall j :: 0 <= j < i ==> !Hits(events[j], verifier)
    {
      var ev := events[i];
      if IsVerifyCall(ev, verifier) {
        var hashHex := Bytes32HexFromNative(ev.data);
        if hashHex.Some? {
          assert Hits(events[i], verifier);
          return hashHex;
        }
      }
    }
    return None;
  }

  lemma {:induction false} LeafSizes(n: Native, k: nat)
    requires k < |Leaves(n)|
    ensures |Leaves(n)[k]| == 32
    decreases n
  {
    match n
    case List(items) => LeafSizesAll(items, k);
    case Object(values) => LeafSizesAll(values, k);
    case _ =>
  }

  lemma {:induction false} LeafSizesAll(ns: seq<Native>, k: nat)
    requires k < |LeavesAll(ns)|
    ensures |LeavesAll(ns)[k]| == 32
    decreases ns
  {
    if k < |Leaves(ns[0])| {
      LeafSizes(ns[0], k);
    } else {
      LeafSizesAll(ns[1..], k - |Leaves(ns[0])|);
    }
  }

  /** What is reported reads back as a 32-byte leaf of the data: an empty text, which the loops would take for
      nothing found, never occurs. */
  lemma ReportedHashReadsBack(n: Native)
    requires FirstHex(Leaves(n)).Some?
    ensures var h := FirstHex(Leaves(n)).value; |h| == 64 && FromHex(h) == Leaves(n)[0]
  {
    LeafSizes(n, 0);
    FromToHex(Leaves(n)[0]);
  }
}
