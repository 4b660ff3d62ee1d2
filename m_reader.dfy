/**
 * `mReader.py`: sends the SJH-5 measurement request once, then appends every
 * byte it reads to a line buffer as a character and, at each newline, emits the
 * buffer with every "\r\n" removed. The buffer is never cleared.
 */
module MReader {
  import opened PyText
  import opened Serial
  import opened SjhProtocol

  const Newline: byte := 10
  const CrLf := "\r\n"

  /** `(''.join(line)).replace("\r\n", "")`. */
  function Clean(line: string): string {
    Replace(line, CrLf, "")
  }

  /** The strings the loop emits for the bytes `received`, read in order from an empty buffer. */
  function Emitted(received: seq<byte>): seq<string> {
    if received == [] then []
    else
      var n := |received| - 1;
      Emitted(received[..n]) + if received[n] == Newline then [Clean(Text(received))] else []
  }

  /** The positions of the newline bytes, in increasing order. */
  function Newlines(received: seq<byte>): (ps: seq<nat>)
    ensures forall k :: 0 <= k < |ps| ==> ps[k] < |received| && received[ps[k]] == Newline
    ensures forall k, l :: 0 <= k < l < |ps| ==> ps[k] < ps[l]
    ensures forall p :: 0 <= p < |received| && received[p] == Newline ==> p in ps
  {
    if received == [] then []
    else
      var n := |received| - 1;
      var init := Newlines(received[..n]);
      assert forall p :: 0 <= p < n ==> received[..n][p] == received[p];
      init + if received[n] == Newline then [n] else []
  }

  /**
   * The loop of `main` over the bytes `received`: `line.append(chr(c))` for every
   * byte and, when the character is '\n', the cleaned buffer is emitted.
   */
  method AssembleLines(received: seq<byte>) returns (line: string, emitted: seq<string>)
    ensures line == Text(received)
    ensures emitted == Emitted(received)
  {
    line := [];
    emitted := [];
    var i := 0;
    while i < |received|
      invariant i <= |received|
      invariant line == Text(received[..i])
      invariant emitted == Emitted(received[..i])
    {
      var c := received[i];
      line := line + [c as char];
      assert received[..i + 1][..i] == received[..i];
      assert line == Text(received[..i + 1]);
      if c as char == '\n' {
        var dataString := Clean(line);
        emitted := emitted + [dataString];
      }
      i := i + 1;
    }
    assert received[..i] == received;
  }

  /** `main`: write the measurement request, then assemble what comes back. */
  method Monitor(ser: SerialLine, received: seq<byte>) returns (line: string, emitted: seq<string>)
    modifies ser
    ensures ser.written == old(ser.written) + [RequestFrame(CmdCheckMeasurement)]
    ensures line == Text(received) && emitted == Emitted(received)
  {
    var commandData: seq<byte> := [IP, LengthByte, CmdCheckMeasurement];
    var checksum := Checksum(commandData);
    ser.Write(commandData + [checksum]);
    line, emitted := AssembleLines(received);
  }

  /** The cleaned buffer at the moment the byte at position `p` has been appended. */
  function Emission(received: seq<byte>, p: nat): string
    requires p < |received|
  {
    Clean(Text(received[..p + 1]))
  }

  lemma EmissionOfPrefix(received: seq<byte>, m: nat, p: nat)
    requires p < m <= |received|
    ensures Emission(received[..m], p) == Emission(received, p)
  {
    assert received[..m][..p + 1] == received[..p + 1];
  }

  /**
   * One string is emitted per newline byte, and the `k`-th is the whole buffer up
   * to and including the `k`-th newline, cleaned.
   */
  lemma {:induction false} EmittedAtNewlines(received: seq<byte>)
    ensures |Emitted(received)| == |Newlines(received)|
    ensures forall k :: 0 <= k < |Newlines(received)| ==>
      Emitted(received)[k] == Emission(received, Newlines(received)[k])
  {
    if received != [] {
      var n := |received| - 1;
      var init := received[..n];
      EmittedAtNewlines(init);
      var e, ps := Emitted(init), Newlines(init);
      var last := received[n] == Newline;
      assert last ==> Emission(received, n) == Clean(Text(received)) by {
        assert received[..n + 1] == received;
      }
      assert Emitted(received) == e + if last then [Emission(received, n)] else [];
      assert Newlines(received) == ps + if last then [n] else [];
      forall k | 0 <= k < |ps|
        ensures Emitted(received)[k] == Emission(received, Newlines(received)[k])
      {
        EmissionOfPrefix(received, n, ps[k]);
      }
    }
  }

  /**
   * The buffer is never reset, so each emitted string starts with the one emitted
   * before it: the text up to a newline is never rewritten by "\r\n" removal later.
   */
  lemma EmittedExtends(received: seq<byte>, k: nat)
    requires k + 1 < |Emitted(received)|
    ensures Emitted(received)[k] <= Emitted(received)[k + 1]
  {
    EmittedAtNewlines(received);
    var ps := Newlines(received);
    EmissionGrows(received, ps[k], ps[k + 1]);
  }

  /** The buffer cleaned at a newline is a prefix of the buffer cleaned at any later byte. */
  lemma EmissionGrows(received: seq<byte>, p: nat, q: nat)
    requires p < q < |received| && received[p] == Newline
    ensures Emission(received, p) <= Emission(received, q)
  {
    var x, y := received[..p + 1], received[p + 1..q + 1];
    assert received[..q + 1] == x + y;
    TextConcat(x, y);
    var a := Text(x);
    assert a[|a| - 1] == '\n';
    NewlineEndsNoStraddle(a, Text(y));
    ReplaceConcat(a, Text(y), CrLf, "");
    PrefixOfConcat(Clean(a), Clean(Text(y)));
  }

  lemma PrefixOfConcat(e: string, f: string)
    ensures e <= e + f
  {
    assert (e + f)[..|e|] == e;
  }

  /** No "\r\n" can start at the last character of a text that ends with a newline. */
  lemma NewlineEndsNoStraddle(a: string, b: string)
    requires a != [] && a[|a| - 1] == '\n'
    ensures NoStraddle(a, b, CrLf)
  {
    forall j | 0 <= j < |a| && |a| < j + |CrLf| ensures !OccursAt(a + b, CrLf, j) {
      assert j == |a| - 1 && (a + b)[j] == '\n';
      if j + 2 <= |a + b| {
        assert (a + b)[j..j + 2][0] == (a + b)[j];
      }
    }
  }
}
