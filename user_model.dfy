/**
 * The user directory of models/user_model.py: users.csv as a file that may be
 * missing and, once present, holds the header and an ordered list of rows.
 */
module UserModel {
  import opened Wrappers
  import opened Lookup
  import opened PyText
  import opened RoleModel

  /** One record of users.csv; csv.DictReader yields every column as a string. */
  datatype User = User(userId: string, username: string, passwordHash: string, roleId: string, email: string)

  const Header: seq<string> := ["UserID", "Username", "PasswordHash", "RoleID", "Email"]

  /** create_user's default role_id, 3, as csv.writer writes it. */
  const DefaultRoleId := "3"

  const EmailDomain := "@miningapp.com"

  /** Row i (from 0) carries UserID i + 1. */
  predicate IdsSequential(rows: seq<User>) {
    forall i :: 0 <= i < |rows| ==> rows[i].userId == IntToStr(i + 1)
  }

  predicate UsernamesDistinct(rows: seq<User>) {
    forall i, j :: 0 <= i < j < |rows| ==> rows[i].username != rows[j].username
  }

  /** The three accounts init_user_file writes, with ids and RoleIDs 1, 2 and 3. */
  function SeedUsers(): (rows: seq<User>)
    ensures |rows| == 3
    ensures IdsSequential(rows) && UsernamesDistinct(rows)
    ensures forall i :: 0 <= i < |rows| ==> rows[i].roleId == IntToStr(i + 1)
  {
    [ User("1", "admin01", "hash123", "1", "admin@miningapp.com"),
      User("2", "investor01", "hash456", "2", "invest@miningapp.com"),
      User("3", "research01", "hash789", "3", "research@univ.edu") ]
  }

  function HasUsername(username: string): User -> bool {
    (u: User) => u.username == username
  }

  /** get_user over the rows: the first row whose Username equals `username` exactly. */
  function FindUser(rows: seq<User>, username: string): (r: Option<User>)
    ensures r.None? <==> forall i :: 0 <= i < |rows| ==> rows[i].username != username
    ensures r.Some? ==> r.value.username == username
    ensures r.Some? ==> var k := FirstIndex(rows, HasUsername(username));
      k < |rows| && rows[k] == r.value && forall j :: 0 <= j < k ==> rows[j].username != username
  {
    FindFirst(rows, HasUsername(username))
  }

  /** The row create_user appends to `rows`: the next UserID and the derived email. */
  function NewUser(rows: seq<User>, username: string, password: string, roleId: string): User {
    User(IntToStr(|rows| + 1), username, password, roleId, username + EmailDomain)
  }

  /** Registering a new name and then looking it up gives back the row just written. */
  lemma CreateThenGet(rows: seq<User>, username: string, password: string, roleId: string)
    requires FindUser(rows, username).None?
    ensures var u := NewUser(rows, username, password, roleId);
      && FindUser(rows + [u], username) == Some(u)
      && u.passwordHash == password && u.roleId == roleId
  {
    FindFirstAppendMiss(rows, NewUser(rows, username, password, roleId), HasUsername(username));
  }

  /** Appending a row leaves every other name's lookup as it was. */
  lemma CreateKeepsOtherLookups(rows: seq<User>, username: string, password: string, roleId: string, other: string)
    requires other != username
    ensures FindUser(rows + [NewUser(rows, username, password, roleId)], other) == FindUser(rows, other)
  {
    var u := NewUser(rows, username, password, roleId);
    if FindUser(rows, other).Some? {
      FindFirstAppendHit(rows, [u], HasUsername(other));
    } else {
      assert forall i :: 0 <= i < |rows + [u]| ==> (rows + [u])[i].username != other by {
        forall i | 0 <= i < |rows + [u]| ensures (rows + [u])[i].username != other {
          if i < |rows| {
            assert (rows + [u])[i] == rows[i];
          }
        }
      }
    }
  }

  /** Appending the next row keeps row i at UserID i + 1. */
  lemma CreateKeepsIdsSequential(rows: seq<User>, username: string, password: string, roleId: string)
    requires IdsSequential(rows)
    ensures IdsSequential(rows + [NewUser(rows, username, password, roleId)])
  {
    var u := NewUser(rows, username, password, roleId);
    forall i | 0 <= i < |rows + [u]| ensures (rows + [u])[i].userId == IntToStr(i + 1) {
      if i < |rows| {
        assert (rows + [u])[i] == rows[i];
      }
    }
  }

  /** A name that create_user accepted was not yet in the table, so names stay distinct. */
  lemma CreateKeepsUsernamesDistinct(rows: seq<User>, username: string, password: string, roleId: string)
    requires UsernamesDistinct(rows)
    requires FindUser(rows, username).None?
    ensures UsernamesDistinct(rows + [NewUser(rows, username, password, roleId)])
  {
    var u := NewUser(rows, username, password, roleId);
    var t := rows + [u];
    forall i, j | 0 <= i < j < |t| ensures t[i].username != t[j].username {
      assert t[i] == rows[i];
      if j < |rows| {
        assert t[j] == rows[j];
      }
    }
  }

  /** A table whose ids are sequential never holds two rows with the same UserID. */
  lemma SequentialIdsAreUnique(rows: seq<User>, i: nat, j: nat)
    requires IdsSequential(rows)
    requires i < j < |rows|
    ensures rows[i].userId != rows[j].userId
  {
    if rows[i].userId == rows[j].userId {
      IntToStrInjective(i + 1, j + 1);
    }
  }

  /** The arguments of one create_user call. */
  datatype Registration = Registration(username: string, password: string, roleId: string)

  /** The rows after one create_user call: unchanged when the name is taken. */
  function AfterCreate(rows: seq<User>, reg: Registration): seq<User> {
    if FindUser(rows, reg.username).None? then rows + [NewUser(rows, reg.username, reg.password, reg.roleId)]
    else rows
  }

  /** The rows after a sequence of create_user calls, in order. */
  function AfterCreates(rows: seq<User>, regs: seq<Registration>): seq<User>
    decreases |regs|
  {
    if regs == [] then rows else AfterCreates(AfterCreate(rows, regs[0]), regs[1..])
  }

  predicate TableInvariant(rows: seq<User>) {
    IdsSequential(rows) && UsernamesDistinct(rows)
  }

  lemma CreateKeepsTableInvariant(rows: seq<User>, reg: Registration)
    requires TableInvariant(rows)
    ensures TableInvariant(AfterCreate(rows, reg))
  {
    if FindUser(rows, reg.username).None? {
      CreateKeepsIdsSequential(rows, reg.username, reg.password, reg.roleId);
      CreateKeepsUsernamesDistinct(rows, reg.username, reg.password, reg.roleId);
    }
  }

  lemma {:induction false} CreatesKeepTableInvariant(rows: seq<User>, regs: seq<Registration>)
    requires TableInvariant(rows)
    ensures TableInvariant(AfterCreates(rows, regs))
    decreases |regs|
  {
    if regs != [] {
      CreateKeepsTableInvariant(rows, regs[0]);
      CreatesKeepTableInvariant(AfterCreate(rows, regs[0]), regs[1..]);
    }
  }

  /**
   * From the seeded table, whatever create_user calls follow, row i (from 1)
   * has UserID i, no two rows share a UserID, and no two share a Username.
   */
  lemma SeededTableKeepsUniqueIds(regs: seq<Registration>)
    ensures var rows := AfterCreates(SeedUsers(), regs);
      && IdsSequential(rows) && UsernamesDistinct(rows)
      && forall i, j :: 0 <= i < j < |rows| ==> rows[i].userId != rows[j].userId
  {
    var rows := AfterCreates(SeedUsers(), regs);
    CreatesKeepTableInvariant(SeedUsers(), regs);
    forall i, j | 0 <= i < j < |rows| ensures rows[i].userId != rows[j].userId {
      SequentialIdsAreUnique(rows, i, j);
    }
  }

  /** The role a user's RoleID names, when int() accepts it and the id is in the role table. */
  function RoleOfUser(u: User): (r: Option<Role>)
    ensures r.Some? <==> ParseInt(u.roleId).Some? && 1 <= ParseInt(u.roleId).value <= 3
    ensures r.Some? ==> r.value == AllRoles()[ParseInt(u.roleId).value - 1]
  {
    match ParseInt(u.roleId)
    case None => None
    case Some(id) => GetRoleById(id)
  }

  /** Every seeded account resolves to the role of the same position: admin01 is the Administrator, and so on. */
  lemma SeedUserRoles(i: nat)
    requires i < 3
    ensures FindUser(SeedUsers(), SeedUsers()[i].username) == Some(SeedUsers()[i])
    ensures RoleOfUser(SeedUsers()[i]) == Some(AllRoles()[i])
  {
    var rows := SeedUsers();
    FirstIndexIs(rows, HasUsername(rows[i].username), i);
    ParseIntToStr(i + 1);
  }

  // The file as lines of cells, the level at which csv.writer and csv.DictReader work.

  function Cells(u: User): seq<string> {
    [u.userId, u.username, u.passwordHash, u.roleId, u.email]
  }

  function CellLines(rows: seq<User>): (lines: seq<seq<string>>)
    ensures |lines| == |rows|
    ensures forall i :: 0 <= i < |rows| ==> lines[i] == Cells(rows[i])
  {
    seq(|rows|, i requires 0 <= i < |rows| => Cells(rows[i]))
  }

  /** The lines of users.csv: none when it is missing, else the header and one line per row. */
  function Lines(fileExists: bool, rows: seq<User>): seq<seq<string>> {
    if fileExists then [Header] + CellLines(rows) else []
  }

  /** csv.DictReader takes the first line as the header and yields the lines after it. */
  function Records(lines: seq<seq<string>>): seq<seq<string>> {
    if lines == [] then [] else lines[1..]
  }

  /**
   * create_user's write as the source has it: open(USER_FILE, 'a') creates a
   * missing file, and the row is written without a header before it.
   */
  function AppendLineAsWritten(lines: seq<seq<string>>, cells: seq<string>): seq<seq<string>> {
    lines + [cells]
  }

  /** The write as evidently intended: a missing file gets the header first, as init_user_file writes it. */
  function AppendLine(fileExists: bool, lines: seq<seq<string>>, cells: seq<string>): seq<seq<string>> {
    (if fileExists then lines else [Header]) + [cells]
  }

  /**
   * With users.csv missing, registering a user as written leaves a file whose
   * only line is that user's row; DictReader reads it as the header, so the
   * user is not among the records and get_user cannot find it, although
   * create_user returned True.
   */
  lemma HeaderlessFirstRegistration(username: string, password: string, roleId: string)
    ensures var lines := AppendLineAsWritten(Lines(false, []), Cells(NewUser([], username, password, roleId)));
      && |lines| == 1 && lines[0] != Header
      && Records(lines) == []
  {
    var u := NewUser([], username, password, roleId);
    assert u.userId == "1";
    assert Cells(u)[0] != Header[0];
  }

  /** The corrected write keeps the file equal to the header plus the rows, so the new row is a record. */
  lemma AppendLineKeepsLines(fileExists: bool, rows: seq<User>, u: User)
    requires !fileExists ==> rows == []
    ensures AppendLine(fileExists, Lines(fileExists, rows), Cells(u)) == Lines(true, rows + [u])
    ensures Records(AppendLine(fileExists, Lines(fileExists, rows), Cells(u))) == CellLines(rows) + [Cells(u)]
  {
    assert CellLines(rows + [u]) == CellLines(rows) + [Cells(u)];
  }

  /** users.csv, re-read by every operation: whether it exists, and its rows after the header. */
  class UserFile {
    var fileExists: bool
    var rows: seq<User>

    ghost predicate Valid()
      reads this
    {
      !fileExists ==> rows == []
    }

    /** The file's content as lines of cells. */
    function FileLines(): seq<seq<string>>
      reads this
    {
      Lines(fileExists, rows)
    }

    constructor (present: bool, contents: seq<User>)
      requires !present ==> contents == []
      ensures Valid() && fileExists == present && rows == contents
    {
      fileExists := present;
      rows := contents;
    }

    /** init_user_file: writes the header and the three seed accounts only when the file is missing. */
    method InitUserFile()
      requires Valid()
      modifies this
      ensures Valid() && fileExists
      ensures old(fileExists) ==> rows == old(rows)
      ensures !old(fileExists) ==> rows == SeedUsers() && FileLines() == [Header] + CellLines(SeedUsers())
      ensures old(fileExists) ==> unchanged(this)
      ensures !old(fileExists) ==> TableInvariant(rows)
    {
      if !fileExists {
        fileExists := true;
        rows := SeedUsers();
      }
    }

    /** get_user: the first row whose Username is exactly `username`; None when there is none or no file. */
    method GetUser(username: string) returns (user: Option<User>)
      requires Valid()
      ensures user == FindUser(rows, username)
      ensures !fileExists ==> user.None?
    {
      if !fileExists {
        return None;
      }
      var i := 0;
      while i < |rows|
        invariant 0 <= i <= |rows|
        invariant forall j :: 0 <= j < i ==> rows[j].username != username
      {
        if rows[i].username == username {
          FirstIndexIs(rows, HasUsername(username), i);
          return Some(rows[i]);
        }
        i := i + 1;
      }
      return None;
    }

    /**
     * create_user: refuses a name already present; otherwise appends one row
     * with UserID = row count + 1 and the email username@miningapp.com.
     */
    method CreateUser(username: string, password: string, roleId: string := DefaultRoleId) returns (ok: bool)
      requires Valid()
      modifies this
      ensures Valid()
      ensures ok <==> FindUser(old(rows), username).None?
      ensures rows == if ok then old(rows) + [NewUser(old(rows), username, password, roleId)] else old(rows)
      ensures rows == AfterCreate(old(rows), Registration(username, password, roleId))
      ensures TableInvariant(old(rows)) ==> TableInvariant(rows)
      ensures fileExists == (old(fileExists) || ok)
      ensures FileLines() == if ok then AppendLine(old(fileExists), old(FileLines()), Cells(NewUser(old(rows), username, password, roleId)))
                             else old(FileLines())
    {
      var existing := GetUser(username);
      if existing.Some? {
        return false;
      }
      var users := if fileExists then rows else [];
      var row := User(IntToStr(|users| + 1), username, password, roleId, username + EmailDomain);
      AppendLineKeepsLines(fileExists, rows, row);
      if TableInvariant(rows) {
        CreateKeepsTableInvariant(rows, Registration(username, password, roleId));
      }
      fileExists := true;
      rows := rows + [row];
      return true;
    }

    /**
     * get_user_role: the role named by the user's RoleID; None when the user
     * is missing, when int() rejects the RoleID, or when the id is unknown.
     */
    method GetUserRole(username: string) returns (role: Option<Role>)
      requires Valid()
      ensures role.Some? <==> FindUser(rows, username).Some? && RoleOfUser(FindUser(rows, username).value).Some?
      ensures role.Some? ==> role == RoleOfUser(FindUser(rows, username).value)
    {
      var user := GetUser(username);
      if user.None? {
        return None;
      }
      var id := ParseInt(user.value.roleId);
      if id.None? {
        return None;
      }
      return GetRoleById(id.value);
    }
  }
}
