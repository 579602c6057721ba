/** The two ends of a network connection: bytes that will arrive, and bytes sent through a writer that may
    write short or fail. */
module Net {
  import opened Bytes

  /** The receiving half of a connection: the bytes the peer will ever deliver. */
  class Source {
    var input: Bytes

    constructor (input: Bytes)
      ensures this.input == input
    {
      this.input := input;
    }

    /** io.ReadFull: `n` bytes, or everything that is left and an error. */
    method ReadFull(n: nat) returns (r: Option<Bytes>)
      modifies this
      ensures |old(input)| >= n ==> r == Some(old(input)[..n]) && input == old(input)[n..]
      ensures |old(input)| < n ==> r == None && input == []
    {
      if |input| < n {
        input := [];
        return None;
      }
      r := Some(input[..n]);
      input := input[n..];
    }
  }

  /** What one Write of the underlying connection does: how much it takes, and whether it then fails. */
  datatype Accept = Accept(count: nat, fails: bool)

  /** The underlying connection. `script` is what it will do next; past its end it takes everything. */
  class Sink {
    var sent: Bytes
    var script: seq<Accept>

    constructor (script: seq<Accept>)
      ensures sent == [] && this.script == script
    {
      sent, this.script := [], script;
    }

    method Write(b: Bytes) returns (n: nat, failed: bool)
      modifies this
      ensures n <= |b| && sent == old(sent) + b[..n]
      ensures script == if old(script) == [] then [] else old(script)[1..]
      ensures old(script) == [] ==> n == |b| && !failed
      ensures old(script) != [] ==> n == Min(old(script)[0].count, |b|) && failed == old(script)[0].fails
    {
      n, failed := |b|, false;
      if script != [] {
        n, failed, script := Min(script[0].count, |b|), script[0].fails, script[1..];
      }
      sent := sent + b[..n];
    }

    /** A Write that keeps io.Writer's promise: everything is taken, or a prefix is and it fails. */
    method Send(b: Bytes) returns (ok: bool)
      modifies this
      ensures ok ==> sent == old(sent) + b
      ensures old(sent) <= sent <= old(sent) + b
      ensures old(script) == [] ==> ok && script == []
    {
      var n, failed := Write(b);
      ok := !failed && n == |b|;
      assert b[..|b|] == b;
    }
  }
}
