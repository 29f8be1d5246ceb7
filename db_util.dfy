/**
 * The shared database helper of the samples (util/db.go): defaultEnv fills
 * the five MYSQL_* variables the caller left unset or empty, and
 * GetAtMySqlDb / GetXAMySqlDb expand the DSN template from them and open
 * it with the AT or the XA Seata MySQL driver.
 */
module DbUtil {
  import opened Common

  /** The variables defaultEnv fills and the value each gets when it is unset or empty. */
  const Defaults: map<string, string> := map[
    "MYSQL_HOST" := "127.0.0.1",
    "MYSQL_PORT" := "3306",
    "MYSQL_USERNAME" := "root",
    "MYSQL_PASSWORD" := "123456",
    "MYSQL_DB" := "seata_client"]

  /** os.Getenv: an unset variable reads as the empty string. */
  function Getenv(env: map<string, string>, key: string): string
  {
    if key in env then env[key] else ""
  }

  /** One check of defaultEnv: set key to value when it reads as empty. */
  function SetIfEmpty(env: map<string, string>, key: string, value: string): map<string, string>
  {
    if Getenv(env, key) == "" then env[key := value] else env
  }

  /** One check reads as its value afterwards when the key was empty, and touches no other key. */
  lemma GetenvAfterSetIfEmpty(env: map<string, string>, key: string, value: string, other: string)
    ensures Getenv(SetIfEmpty(env, key, value), other)
         == if other == key && Getenv(env, key) == "" then value else Getenv(env, other)
  {
  }

  /** The five variable names are distinct. */
  lemma DefaultKeysDistinct()
    ensures "MYSQL_HOST" != "MYSQL_PORT" && "MYSQL_HOST" != "MYSQL_USERNAME"
    ensures "MYSQL_HOST" != "MYSQL_PASSWORD" && "MYSQL_HOST" != "MYSQL_DB"
    ensures "MYSQL_PORT" != "MYSQL_USERNAME" && "MYSQL_PORT" != "MYSQL_PASSWORD" && "MYSQL_PORT" != "MYSQL_DB"
    ensures "MYSQL_USERNAME" != "MYSQL_PASSWORD" && "MYSQL_USERNAME" != "MYSQL_DB"
    ensures "MYSQL_PASSWORD" != "MYSQL_DB"
  {
    assert "MYSQL_HOST"[6] == 'H' && "MYSQL_PORT"[6] == 'P' && "MYSQL_USERNAME"[6] == 'U';
    assert "MYSQL_PASSWORD"[6] == 'P' && "MYSQL_DB"[6] == 'D';
    assert "MYSQL_PORT"[7] == 'O' && "MYSQL_PASSWORD"[7] == 'A';
  }

  /** The value defaultEnv leaves under any key, read through os.Getenv. */
  lemma GetenvWithDefaults(env: map<string, string>, key: string)
    ensures Getenv(WithDefaults(env), key)
         == if key in Defaults && Getenv(env, key) == "" then Defaults[key] else Getenv(env, key)
  {
    DefaultKeysDistinct();
    var host := SetIfEmpty(env, "MYSQL_HOST", "127.0.0.1");
    var port := SetIfEmpty(host, "MYSQL_PORT", "3306");
    var user := SetIfEmpty(port, "MYSQL_USERNAME", "root");
    var password := SetIfEmpty(user, "MYSQL_PASSWORD", "123456");
    GetenvAfterSetIfEmpty(env, "MYSQL_HOST", "127.0.0.1", key);
    GetenvAfterSetIfEmpty(host, "MYSQL_PORT", "3306", key);
    GetenvAfterSetIfEmpty(port, "MYSQL_USERNAME", "root", key);
    GetenvAfterSetIfEmpty(user, "MYSQL_PASSWORD", "123456", key);
    GetenvAfterSetIfEmpty(password, "MYSQL_DB", "seata_client", key);
  }

  /** The environment after defaultEnv, its five checks applied in order. */
  function WithDefaults(env: map<string, string>): (r: map<string, string>)
    ensures r.Keys == env.Keys + Defaults.Keys
  {
    var host := SetIfEmpty(env, "MYSQL_HOST", "127.0.0.1");
    var port := SetIfEmpty(host, "MYSQL_PORT", "3306");
    var user := SetIfEmpty(port, "MYSQL_USERNAME", "root");
    var password := SetIfEmpty(user, "MYSQL_PASSWORD", "123456");
    SetIfEmpty(password, "MYSQL_DB", "seata_client")
  }

  /** An unset or empty default variable gets its default. */
  lemma DefaultsFillUnset(env: map<string, string>, key: string)
    requires key in Defaults && Getenv(env, key) == ""
    ensures Getenv(WithDefaults(env), key) == Defaults[key]
  {
    GetenvWithDefaults(env, key);
  }

  /** A variable that is set to something non-empty keeps its value. */
  lemma DefaultsKeepSet(env: map<string, string>, key: string)
    requires Getenv(env, key) != ""
    ensures Getenv(WithDefaults(env), key) == env[key]
  {
    GetenvWithDefaults(env, key);
  }

  /** Afterwards none of the five variables reads as empty. */
  lemma DefaultsAllSet(env: map<string, string>)
    ensures forall key :: key in Defaults ==> Getenv(WithDefaults(env), key) != ""
  {
    forall key | key in Defaults
      ensures Getenv(WithDefaults(env), key) != ""
    {
      GetenvWithDefaults(env, key);
    }
  }

  /** Calling defaultEnv twice is the same as calling it once. */
  lemma DefaultsIdempotent(env: map<string, string>)
    ensures WithDefaults(WithDefaults(env)) == WithDefaults(env)
  {
    var once := WithDefaults(env);
    var twice := WithDefaults(once);
    DefaultsAllSet(env);
    forall k | k in once.Keys
      ensures twice[k] == once[k]
    {
      GetenvWithDefaults(once, k);
    }
  }

  /** The process environment: os.Getenv / os.Setenv read and write it. */
  class Environment {
    var vars: map<string, string>

    constructor (vars: map<string, string>)
      ensures this.vars == vars
    {
      this.vars := vars;
    }

    /** os.Setenv */
    method Setenv(key: string, value: string)
      modifies this
      ensures vars == old(vars)[key := value]
    {
      vars := vars[key := value];
    }

    /** defaultEnv: five checks in turn, each setting its variable when it reads as empty. */
    method DefaultEnv()
      modifies this
      ensures vars == WithDefaults(old(vars))
    {
      if Getenv(vars, "MYSQL_HOST") == "" {
        Setenv("MYSQL_HOST", "127.0.0.1");
      }
      if Getenv(vars, "MYSQL_PORT") == "" {
        Setenv("MYSQL_PORT", "3306");
      }
      if Getenv(vars, "MYSQL_USERNAME") == "" {
        Setenv("MYSQL_USERNAME", "root");
      }
      if Getenv(vars, "MYSQL_PASSWORD") == "" {
        Setenv("MYSQL_PASSWORD", "123456");
      }
      if Getenv(vars, "MYSQL_DB") == "" {
        Setenv("MYSQL_DB", "seata_client");
      }
    }
  }

  /** A piece of an os.ExpandEnv template: literal text or a ${NAME} reference. */
  datatype Piece = Lit(text: string) | Var(name: string)

  /** os.ExpandEnv on a template already split into pieces. */
  function Expand(template: seq<Piece>, env: map<string, string>): string
  {
    ExpandFrom(template, 0, env)
  }

  /** The expansion of the pieces from index i on. */
  function ExpandFrom(template: seq<Piece>, i: nat, env: map<string, string>): string
    requires i <= |template|
    decreases |template| - i
  {
    if i == |template| then "" else PieceText(template[i], env) + ExpandFrom(template, i + 1, env)
  }

  /** The DSN template of GetAtMySqlDb and GetXAMySqlDb. */
  const DsnTemplate: seq<Piece> := [
    Var("MYSQL_USERNAME"), Lit(":"), Var("MYSQL_PASSWORD"), Lit("@tcp("),
    Var("MYSQL_HOST"), Lit(":"), Var("MYSQL_PORT"), Lit(")/"), Var("MYSQL_DB"),
    Lit("?multiStatements=true&interpolateParams=true")]

  function Dsn(env: map<string, string>): string
  {
    Expand(DsnTemplate, env)
  }

  /** The text a piece expands to. */
  function PieceText(p: Piece, env: map<string, string>): string
  {
    match p
    case Lit(t) => t
    case Var(n) => Getenv(env, n)
  }

  /** The DSN is user:password@tcp(host:port)/db with the MySQL options. */
  lemma DsnShape(env: map<string, string>)
    ensures Dsn(env) ==
      Getenv(env, "MYSQL_USERNAME") + (":" + (Getenv(env, "MYSQL_PASSWORD")
      + ("@tcp(" + (Getenv(env, "MYSQL_HOST") + (":" + (Getenv(env, "MYSQL_PORT") + (")/"
      + (Getenv(env, "MYSQL_DB") + "?multiStatements=true&interpolateParams=true"))))))))
  {
    var t := DsnTemplate;
    var e9 := ExpandFrom(t, 9, env);
    assert e9 == "?multiStatements=true&interpolateParams=true";
    var e8 := ExpandFrom(t, 8, env);
    assert e8 == Getenv(env, "MYSQL_DB") + e9;
    var e7 := ExpandFrom(t, 7, env);
    assert e7 == ")/" + e8;
    var e6 := ExpandFrom(t, 6, env);
    assert e6 == Getenv(env, "MYSQL_PORT") + e7;
    var e5 := ExpandFrom(t, 5, env);
    assert e5 == ":" + e6;
    var e4 := ExpandFrom(t, 4, env);
    assert e4 == Getenv(env, "MYSQL_HOST") + e5;
    var e3 := ExpandFrom(t, 3, env);
    assert e3 == "@tcp(" + e4;
    var e2 := ExpandFrom(t, 2, env);
    assert e2 == Getenv(env, "MYSQL_PASSWORD") + e3;
    var e1 := ExpandFrom(t, 1, env);
    assert e1 == ":" + e2;
  }

  /** With nothing set, the DSN points at the local seata_client database as root:123456. */
  lemma DefaultDsn()
    ensures Dsn(WithDefaults(map[])) ==
      "root" + (":" + ("123456" + ("@tcp(" + ("127.0.0.1" + (":" + ("3306" + (")/"
      + ("seata_client" + "?multiStatements=true&interpolateParams=true"))))))))
  {
    var env := WithDefaults(map[]);
    DsnShape(env);
    DefaultsFillUnset(map[], "MYSQL_USERNAME");
    DefaultsFillUnset(map[], "MYSQL_PASSWORD");
    DefaultsFillUnset(map[], "MYSQL_HOST");
    DefaultsFillUnset(map[], "MYSQL_PORT");
    DefaultsFillUnset(map[], "MYSQL_DB");
  }

  /** The two Seata MySQL drivers the samples open. */
  datatype Driver = SeataATMySQL | SeataXAMySQL

  /** GetAtMySqlDb: the AT driver and the DSN built after defaultEnv. */
  method GetAtMySqlDb(env: Environment) returns (driver: Driver, dsn: string)
    modifies env
    ensures env.vars == WithDefaults(old(env.vars))
    ensures driver == SeataATMySQL && dsn == Dsn(env.vars)
  {
    env.DefaultEnv();
    dsn := Dsn(env.vars);
    driver := SeataATMySQL;
  }

  /** GetXAMySqlDb: the XA driver and the same DSN. */
  method GetXAMySqlDb(env: Environment) returns (driver: Driver, dsn: string)
    modifies env
    ensures env.vars == WithDefaults(old(env.vars))
    ensures driver == SeataXAMySQL && dsn == Dsn(env.vars)
  {
    env.DefaultEnv();
    dsn := Dsn(env.vars);
    driver := SeataXAMySQL;
  }
}
