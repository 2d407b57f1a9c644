/** Keys of the ssh setting: an identifier and, behind an equals sign, paths between commas. */
module SshKeys {
  import opened Common
  import opened Texts
  import opened CsvLine
  import opened Csv

  datatype SSH = SSH(id: string, paths: seq<string>)

  function Printed(k: SSH): string {
    if k.paths == [] then k.id else Field(Pair(k.id, Joined(k.paths, COMMA)))
  }

  function Read(s: string): SSH {
    match Cut(s)
    case None => SSH(s, [])
    case Some(p) => SSH(p.key, Split(p.value, COMMA))
  }

  method Print(k: SSH) returns (s: string)
    ensures s == Printed(k)
  {
    if |k.paths| == 0 {
      return k.id;
    }
    var b := new CsvBuilder();
    var paths := JoinPaths(k.paths);
    b.Write(k.id, paths);
    s := b.sb;
    TextOneMore([], Pair(k.id, paths));
    assert b.written == [Pair(k.id, paths)];
  }

  method JoinPaths(ps: seq<string>) returns (s: string)
    requires |ps| > 0
    ensures s == Joined(ps, COMMA)
  {
    s := ps[0];
    assert ps[..1] == [ps[0]];
    for i := 1 to |ps|
      invariant s == Joined(ps[..i], COMMA)
    {
      assert ps[..i + 1][..i] == ps[..i];
      s := s + [COMMA] + ps[i];
    }
    assert ps[..|ps|] == ps;
  }

  class Key {
    var id: string
    var paths: seq<string>

    constructor ()
    {
      id, paths := "", [];
    }

    method UnmarshalText(s: string)
      modifies this
      ensures SSH(id, paths) == Read(s)
    {
      var parts := Cut(s);
      if parts.Some? {
        id := parts.value.key;
        paths := Split(parts.value.value, COMMA);
      } else {
        id := s;
        paths := [];
      }
    }
  }

  /** Printing and reading is the identity exactly when the identifier has no equals sign and no path a comma. */
  lemma RoundTrip(k: SSH)
    ensures Read(Printed(k)) == k <==> EQ !in k.id && AllFree(k.paths, COMMA)
  {
    var s := Printed(k);
    if Cut(s).Some? {
      SplitParts(Cut(s).value.value, COMMA);
    }
    if EQ !in k.id && AllFree(k.paths, COMMA) && k.paths != [] {
      CutField(Pair(k.id, Joined(k.paths, COMMA)));
      SplitJoined(k.paths, COMMA);
    }
  }

  /** Reading and printing is the identity on every text. */
  lemma PrintedRead(s: string)
    ensures Printed(Read(s)) == s
  {
    if Cut(s).Some? {
      JoinedSplit(Cut(s).value.value, COMMA);
    }
  }
}
