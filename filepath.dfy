/**
 The parts of Go's `path/filepath` package the store relies on, with `/` as
 the separator and without the lexical cleaning that Join and Dir also do.
 */
module Filepath {

  /** filepath.Join of two elements; an empty element is ignored. */
  function Join(a: string, b: string): (p: string)
    ensures p != "" <==> a != "" || b != ""
    ensures a == "" ==> p == b
    ensures b == "" ==> p == a
    ensures a != "" && b != "" ==> p == a + "/" + b
  {
    if a == "" then b else if b == "" then a else a + "/" + b
  }

  /** The index of the last `/` in `p`, or -1 when there is none. */
  function LastSlash(p: string): (r: int)
    ensures -1 <= r < |p|
    ensures r >= 0 ==> p[r] == '/'
    ensures forall i :: r < i < |p| ==> p[i] != '/'
  {
    if p == [] then -1
    else if p[|p| - 1] == '/' then |p| - 1
    else LastSlash(p[..|p| - 1])
  }

  /**
   filepath.Dir: everything before the last `/`; `.` when there is no `/`,
   and `/` when the only `/` is the first character. Never empty.
   */
  function Dir(p: string): (d: string)
    ensures d != ""
  {
    var i := LastSlash(p);
    if i < 0 then "." else if i == 0 then "/" else p[..i]
  }

  /** Dir undoes Join: the directory of a file joined onto a non-empty directory is that directory. */
  lemma DirJoin(d: string, name: string)
    requires d != "" && name != "" && '/' !in name
    ensures Dir(Join(d, name)) == d
  {
    var p := Join(d, name);
    assert p == d + "/" + name;
    var i := LastSlash(p);
    assert p[|d|] == '/';
    assert i == |d|;
    assert p[..i] == d;
  }

}
