/** The replicated data model: versions, cells, rows, tombstones, claims, schemas and deltas. */
module Types {
  type PeerId = string
  type RowId = string
  type ColumnId = string
  type TableId = string

  datatype Option<+T> = None | Some(value: T)

  /** A Lamport counter together with the peer that issued it. */
  datatype Version = Version(counter: nat, peer: PeerId)

  /** Highest counter seen from each peer; an absent peer counts as 0. */
  type Frontier = map<PeerId, nat>

  datatype Value = Null | Integer(i: int) | Text(s: string) | Blob(b: seq<bv8>)

  datatype Cell = Cell(value: Value, version: Version)

  datatype Row = Row(id: RowId, cells: map<ColumnId, Cell>, deleted: bool, deleteVersion: Option<Version>)

  datatype RowKey = RowKey(table: TableId, row: RowId)

  datatype Tombstone = Tombstone(key: RowKey, version: Version)

  /** The registry key of a unique value; composite constraints join their columns and values. */
  datatype ClaimKey = ClaimKey(table: TableId, column: string, value: string)

  datatype Loser = Loser(row: RowId, version: Version)

  datatype Claim = Claim(owner: RowId, version: Version, losers: seq<Loser>)

  datatype ClaimRecord = ClaimRecord(key: ClaimKey, claim: Claim)

  /** TombstoneParent keeps the child as it is, Cascade deletes it, Orphan nulls its column. */
  datatype FkPolicy = TombstoneParent | Cascade | Orphan

  datatype ForeignKey = ForeignKey(column: ColumnId, refTable: TableId, policy: FkPolicy)

  datatype Column = Column(name: ColumnId, nullable: bool, unique: bool, primaryKey: bool)

  datatype TableSchema = TableSchema(columns: seq<Column>, foreignKeys: seq<ForeignKey>, composites: seq<seq<ColumnId>>)

  datatype RowDelta = RowDelta(table: TableId, row: Row)

  datatype SyncDelta = SyncDelta(
    source: PeerId, rows: seq<RowDelta>, tombstones: seq<Tombstone>, claims: seq<ClaimRecord>, frontier: Frontier)

  // ---------------------------------------------------------------- order

  /** Lexicographic order on strings, as String's derived order. */
  predicate StrLess(a: string, b: string) {
    if b == "" then false
    else if a == "" then true
    else a[0] < b[0] || (a[0] == b[0] && StrLess(a[1..], b[1..]))
  }

  /** The derived order on versions: counter first, peer id on a tie. */
  predicate Newer(a: Version, b: Version) {
    a.counter > b.counter || (a.counter == b.counter && StrLess(b.peer, a.peer))
  }

  predicate AtLeast(a: Version, b: Version) {
    a == b || Newer(a, b)
  }

  lemma {:induction false} StrTrichotomy(a: string, b: string)
    ensures StrLess(a, b) ==> !StrLess(b, a) && a != b
    ensures a == b || StrLess(a, b) || StrLess(b, a)
  {
    if a != "" && b != "" {
      StrTrichotomy(a[1..], b[1..]);
      assert a == [a[0]] + a[1..] && b == [b[0]] + b[1..];
    }
  }

  lemma {:induction false} StrTransitive(a: string, b: string, c: string)
    requires StrLess(a, b) && StrLess(b, c)
    ensures StrLess(a, c)
  {
    if a != "" && a[0] == b[0] && b[0] == c[0] {
      StrTransitive(a[1..], b[1..], c[1..]);
    }
  }

  /** Versions are totally ordered by Newer. */
  lemma VersionOrder()
    ensures forall a, b {:trigger Newer(a, b)} :: Newer(a, b) ==> !Newer(b, a) && a != b
    ensures forall a, b {:trigger Newer(a, b)} :: a == b || Newer(a, b) || Newer(b, a)
    ensures forall a, b, c {:trigger Newer(a, b), Newer(b, c)} :: Newer(a, b) && Newer(b, c) ==> Newer(a, c)
  {
    forall a: Version, b: Version
      ensures Newer(a, b) ==> !Newer(b, a) && a != b
      ensures a == b || Newer(a, b) || Newer(b, a)
    {
      StrTrichotomy(a.peer, b.peer);
    }
    forall a: Version, b: Version, c: Version | Newer(a, b) && Newer(b, c)
      ensures Newer(a, c)
    {
      if a.counter == b.counter && b.counter == c.counter {
        StrTransitive(c.peer, b.peer, a.peer);
      }
    }
  }

  /**
   One string is less than another exactly when they agree up to a place where it ends or has the smaller character, so
   a proper prefix is less.
   */
  lemma {:induction false} StrLessIff(a: string, b: string)
    ensures StrLess(a, b) <==>
            exists i: nat | i <= |a| && i < |b| :: a[..i] == b[..i] && (i == |a| || a[i] < b[i])
  {
    if a != "" && b != "" && a[0] == b[0] {
      StrLessIff(a[1..], b[1..]);
      if i: nat :| i < |a| && i < |b| - 1 && a[1..][..i] == b[1..][..i] && (i == |a| - 1 || a[1..][i] < b[1..][i]) {
        assert a[..i + 1] == [a[0]] + a[1..][..i] && b[..i + 1] == [b[0]] + b[1..][..i];
      }
      if i: nat :| i <= |a| && i < |b| && a[..i] == b[..i] && (i == |a| || a[i] < b[i]) {
        assert a[1..][..i - 1] == a[..i][1..] && b[1..][..i - 1] == b[..i][1..];
      }
    } else if a != "" && b != "" {
      forall i: nat | 0 < i <= |a| && i < |b| ensures a[..i] != b[..i] {
        assert a[..i][0] == a[0] && b[..i][0] == b[0];
      }
      assert a[..0] == b[..0];
    } else if b != "" {
      assert a[..0] == b[..0];
    }
  }

  /** A version is newer by its counter, on a tie by the peer id that is the larger string. */
  lemma NewerIff(a: Version, b: Version)
    ensures Newer(a, b) <==>
            || a.counter > b.counter
            || (a.counter == b.counter
                && exists i: nat | i <= |b.peer| && i < |a.peer| ::
                     b.peer[..i] == a.peer[..i] && (i == |b.peer| || b.peer[i] < a.peer[i]))
  {
    StrLessIff(b.peer, a.peer);
  }

  lemma AtLeastTransitive(a: Version, b: Version, c: Version)
    requires AtLeast(a, b) && AtLeast(b, c)
    ensures AtLeast(a, c)
  {
    VersionOrder();
  }

  // -------------------------------------------------------------- display

  function Digits(n: nat): string {
    if n < 10 then ["0123456789"[n]] else Digits(n / 10) + ["0123456789"[n % 10]]
  }

  /** The text form of a value; foreign keys and unique keys compare values by it. */
  function Display(v: Value): string {
    match v
    case Null => "NULL"
    case Integer(i) => if i < 0 then "-" + Digits(-i) else Digits(i)
    case Text(s) => s
    case Blob(b) => "<blob " + Digits(|b|) + " bytes>"
  }

  /** The number a text of digits stands for. */
  ghost function ReadDigits(s: string): int {
    if s == "" then 0 else 10 * ReadDigits(s[..|s| - 1]) + s[|s| - 1] as int - '0' as int
  }

  ghost function ReadInteger(s: string): int {
    if s != "" && s[0] == '-' then -ReadDigits(s[1..]) else ReadDigits(s)
  }

  lemma ReadAppended(s: string, c: char)
    ensures ReadDigits(s + [c]) == 10 * ReadDigits(s) + c as int - '0' as int
  {
    assert (s + [c])[..|s|] == s;
  }

  lemma OneDigit(d: nat)
    requires d < 10
    ensures var c := "0123456789"[d]; '0' <= c <= '9' && c as int - '0' as int == d
  {
  }

  /** The digits of a number read back as it, with no leading zero. */
  lemma {:induction false} DigitsRead(n: nat)
    ensures Digits(n) != "" && forall c | c in Digits(n) :: '0' <= c <= '9'
    ensures ReadDigits(Digits(n)) == n && (Digits(n)[0] == '0' ==> n == 0)
  {
    var last := "0123456789"[n % 10];
    OneDigit(n % 10);
    if n < 10 {
      ReadAppended("", last);
      assert Digits(n) == "" + [last];
    } else {
      DigitsRead(n / 10);
      ReadAppended(Digits(n / 10), last);
      hide ReadDigits;
      assert 10 * (n / 10) + n % 10 == n;
    }
  }

  /** The text of an integer reads back as it, so two integers never share an id or a claim. */
  lemma IntegerTexts(i: int, j: int)
    ensures ReadInteger(Display(Integer(i))) == i
    ensures Display(Integer(i)) == Display(Integer(j)) <==> i == j
  {
    ReadBack(i);
    ReadBack(j);
  }

  /** NULL and the text NULL name the same row, and all blobs of one length have one text. */
  lemma SharedTexts(a: seq<bv8>, b: seq<bv8>)
    ensures Display(Null) == Display(Text("NULL"))
    ensures Display(Blob(a)) == Display(Blob(b)) <==> |a| == |b|
  {
    DigitsRead(|a|);
    DigitsRead(|b|);
    BetweenAffixes("<blob ", Digits(|a|), Digits(|b|), " bytes>");
  }

  lemma BetweenAffixes(head: string, s: string, t: string, tail: string)
    ensures head + s + tail == head + t + tail <==> s == t
  {
    if head + s + tail == head + t + tail {
      assert s == (head + s + tail)[|head|..|head + s + tail| - |tail|];
      assert t == (head + t + tail)[|head|..|head + t + tail| - |tail|];
    }
  }

  lemma ReadBack(i: int)
    ensures ReadInteger(Display(Integer(i))) == i
  {
    DigitsRead(if i < 0 then -i else i);
    if i < 0 {
      assert Display(Integer(i))[1..] == Digits(-i);
    } else {
      assert Digits(i)[0] in Digits(i);
    }
  }

  // ------------------------------------------------------ unit separators

  const SEPARATOR: char := '\U{1F}'

  function JoinParts(parts: seq<string>): string {
    if parts == [] then ""
    else if |parts| == 1 then parts[0]
    else parts[0] + [SEPARATOR] + JoinParts(parts[1..])
  }

  function SplitParts(s: string): (parts: seq<string>)
    ensures parts != []
  {
    if s == "" then [""]
    else
      var rest := SplitParts(s[1..]);
      if s[0] == SEPARATOR then [""] + rest else [[s[0]] + rest[0]] + rest[1..]
  }

  lemma {:induction false} SplitPlain(s: string)
    requires SEPARATOR !in s
    ensures SplitParts(s) == [s]
  {
    if s != "" {
      SplitPlain(s[1..]);
      assert s == [s[0]] + s[1..];
    }
  }

  lemma {:induction false} SplitPrefix(s: string, t: string)
    requires SEPARATOR !in s
    ensures SplitParts(s + [SEPARATOR] + t) == [s] + SplitParts(t)
  {
    var u := s + [SEPARATOR] + t;
    if s == "" {
      assert u[1..] == t;
    } else {
      SplitPrefix(s[1..], t);
      assert u[1..] == s[1..] + [SEPARATOR] + t;
      assert u[0] == s[0] && s == [s[0]] + s[1..];
    }
  }

  /** A composite constraint key splits back into its columns when no column holds the separator. */
  lemma {:induction false} SplitJoin(parts: seq<string>)
    requires parts != [] && forall p | p in parts :: SEPARATOR !in p
    ensures SplitParts(JoinParts(parts)) == parts
  {
    if |parts| == 1 {
      SplitPlain(parts[0]);
    } else {
      SplitJoin(parts[1..]);
      SplitPrefix(parts[0], JoinParts(parts[1..]));
    }
  }
}
