/** Line-by-line relaying of an event stream, shared by the sidecar and the gateway. A script
    lists what each turn of the loop meets: the line read, the reader's error, whether the
    write succeeds and whether the requester has gone. */
module Streams {

  datatype ReadErr = NoErr | Eof | Broken(cancelled: bool)

  datatype Turn = Turn(line: string, err: ReadErr, writeOk: bool, gone: bool)

  predicate WriteFails(t: Turn) { t.line != "" && !t.writeOk }

  predicate Ends(t: Turn) { WriteFails(t) || t.err != NoErr || t.gone }

  /** The first turn that ends the relay, or the length of a script that does not. */
  function StopAt(script: seq<Turn>): (k: nat)
    ensures k <= |script|
  {
    if script == [] then 0 else if Ends(script[0]) then 0 else 1 + StopAt(script[1..])
  }

  lemma {:induction false} StopAtIsFirst(script: seq<Turn>)
    ensures forall i | 0 <= i < StopAt(script) :: !Ends(script[i])
    ensures StopAt(script) < |script| ==> Ends(script[StopAt(script)])
  {
    if script != [] && !Ends(script[0]) {
      StopAtIsFirst(script[1..]);
      assert forall i | 0 < i < |script| :: script[i] == script[1..][i - 1];
    }
  }

  lemma StopAtUnique(script: seq<Turn>, k: nat)
    requires k <= |script| && (forall i | 0 <= i < k :: !Ends(script[i])) && (k < |script| ==> Ends(script[k]))
    ensures StopAt(script) == k
  {
    StopAtIsFirst(script);
  }

  /** The first `n` lines of a script, in order. */
  function BytesTo(script: seq<Turn>, n: nat): string
    requires n <= |script|
  {
    if n == 0 then "" else BytesTo(script, n - 1) + script[n - 1].line
  }

  /** Every line read before the first failed write or the end, in order. */
  function Delivered(script: seq<Turn>): string { DeliveredBy(script, StopAt(script)) }

  function DeliveredBy(script: seq<Turn>, k: nat): string
    requires k <= |script|
  {
    BytesTo(script, if k < |script| && !WriteFails(script[k]) then k + 1 else k)
  }

  lemma {:induction false} BytesSilent(script: seq<Turn>, n: nat)
    requires n <= |script|
    ensures BytesTo(script, n) == "" <==> forall i | 0 <= i < n :: script[i].line == ""
  {
    if n > 0 {
      BytesSilent(script, n - 1);
      assert |BytesTo(script, n)| == |BytesTo(script, n - 1)| + |script[n - 1].line|;
    }
  }
}
