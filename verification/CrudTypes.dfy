/** Outcomes of the CRUD verbs, and the title rule they share. */
module CrudTypes {
  datatype Error = NotFound | ValidationFailed | Conflict | PreconditionFailed

  datatype Result<+T> = Ok(value: T) | Err(error: Error)

  /** The characters `str.strip` takes off. */
  predicate Blank(c: char) {
    var n := c as int;
    0x09 <= n <= 0x0D || 0x1C <= n <= 0x20 || n == 0x85 || n == 0xA0 || n == 0x1680 || 0x2000 <= n <= 0x200A
    || n == 0x2028 || n == 0x2029 || n == 0x202F || n == 0x205F || n == 0x3000
  }

  function TrimLeft(s: string): (t: string)
    ensures |t| <= |s| && (t != "" ==> !Blank(t[0]))
  {
    if s != "" && Blank(s[0]) then TrimLeft(s[1..]) else s
  }

  function TrimRight(s: string): (t: string)
    ensures t <= s && (t != "" ==> !Blank(t[|t| - 1]))
  {
    if s != "" && Blank(s[|s| - 1]) then TrimRight(s[..|s| - 1]) else s
  }

  function Trim(s: string): string {
    TrimRight(TrimLeft(s))
  }

  /** The title rule: a title is accepted exactly when it has a non-blank character. */
  lemma {:induction false} TrimEmptyIff(s: string)
    ensures Trim(s) == "" <==> forall i | 0 <= i < |s| :: Blank(s[i])
  {
    LeftEmptyIff(s);
    var t := TrimLeft(s);
    if t != "" {
      RightKeeps(t);
    }
  }

  lemma {:induction false} LeftEmptyIff(s: string)
    ensures TrimLeft(s) == "" <==> forall i | 0 <= i < |s| :: Blank(s[i])
    decreases |s|
  {
    if s != "" && Blank(s[0]) {
      LeftEmptyIff(s[1..]);
      assert forall i | 1 <= i < |s| :: s[1..][i - 1] == s[i];
    }
  }

  lemma {:induction false} RightKeeps(s: string)
    requires s != "" && !Blank(s[0])
    ensures TrimRight(s) != ""
    decreases |s|
  {
    if Blank(s[|s| - 1]) {
      RightKeeps(s[..|s| - 1]);
    }
  }
}
