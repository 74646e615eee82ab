/** Capping of path segments written to the audit log. */
module AuditLog {
  import opened Prelude
  import Utf8
  import Names

  const LOG_CAP: nat := 64

  function Cap(s: Bytes): nat {
    if |s| < LOG_CAP then |s| else LOG_CAP
  }

  /**
   `truncate_for_log`: the longest well-formed prefix of at most 64 octets. The
   loop runs `Cap(segment) - |r|` times, never more than three.
   */
  method TruncateForLog(segment: Utf8.Text) returns (r: Bytes)
    ensures r <= segment && Utf8.Valid(r) && |r| <= 64
    ensures forall n :: 0 <= n <= 64 && n <= |segment| && Utf8.Valid(segment[..n]) ==> n <= |r|
    ensures (if |segment| < 64 then |segment| else 64) - |r| <= 3
  {
    var end := Cap(segment);
    ghost var b := Utf8.BoundaryWithinThree(segment, end);
    while !Utf8.IsCharBoundary(segment, end)
      invariant b <= end <= Cap(segment)
      invariant forall n :: end < n <= Cap(segment) ==> !Utf8.IsCharBoundary(segment, n)
      decreases end
    {
      end := end - 1;
    }
    r := segment[..end];
    forall n | 0 <= n <= Cap(segment)
      ensures Utf8.Valid(segment[..n]) <==> Utf8.IsCharBoundary(segment, n)
    {
      Utf8.BoundaryIffValidPrefix(segment, n);
    }
  }

  /** Valid project names reach the log unchanged. */
  method LogProject(name: Bytes) returns (r: Bytes)
    requires Names.ValidProject(name)
    ensures r == name
  {
    Utf8.AsciiValid(name);
    assert name[..|name|] == name;
    r := TruncateForLog(name);
  }
}
