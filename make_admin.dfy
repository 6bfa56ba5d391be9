/** The start of the command-line script that promotes a user to admin
    (scripts/make-admin.js): reading the `.env` file into a dictionary, the check for the
    two Supabase settings, and the checks on the email argument. The file's text and the
    argument vector are parameters; the Supabase calls that follow are not modelled. */
module MakeAdmin {
  import opened Wrappers
  import opened Text
  import opened Seqs

  /** What one line of `.env` contributes: nothing for an empty line, a line starting
      with `#`, or a line that starts with `=`; otherwise the text before the first `=`,
      trimmed, as key and everything after it, trimmed, as value. */
  function ParseLine(line: string): Option<(string, string)> {
    if line == "" || StartsWith(line, "#") then None
    else
      var parts := Split(line, '=');
      if parts[0] == "" then None
      else Some((Trim(parts[0]), Trim(Join(parts[1..], '='))))
  }

  /** `KEY = some=value` gives the trimmed key and the trimmed value, `=` signs and all. */
  lemma ParseAssignment(key: string, value: string)
    requires key != "" && key[0] != '#' && '=' !in key
    ensures ParseLine(key + "=" + value) == Some((Trim(key), Trim(value)))
  {
    var line := key + "=" + value;
    SplitAppend(key, value, '=');
    SplitNoSeparator(key, '=');
    JoinSplit(value, '=');
    var parts := Split(line, '=');
    assert parts == [key] + Split(value, '=');
    assert parts[1..] == Split(value, '=');
    assert !StartsWith(line, "#") by {
      assert line[..1][0] == line[0] == key[0];
    }
  }

  /** A line without `=` maps its trimmed text to the empty string. */
  lemma ParseBareKey(line: string)
    requires line != "" && line[0] != '#' && '=' !in line
    ensures ParseLine(line) == Some((Trim(line), ""))
  {
    assert !StartsWith(line, "#") by {
      assert line[..1][0] == line[0];
    }
    SplitNoSeparator(line, '=');
    assert Split(line, '=')[1..] == [];
    TrimOfTrimmed("");
  }

  /** The dictionary after entering one line. */
  function Enter(env: map<string, string>, line: string): map<string, string> {
    match ParseLine(line)
    case None => env
    case Some(kv) => env[kv.0 := kv.1]
  }

  /** The dictionary after reading `lines` into `env` one after the other. */
  function Load(env: map<string, string>, lines: seq<string>): map<string, string>
    decreases lines
  {
    if lines == [] then env else Load(Enter(env, lines[0]), lines[1..])
  }

  /** The dictionary `loadEnv` returns for the file's text `content`. */
  function EnvOf(content: string): map<string, string> {
    Load(map[], Split(content, '\n'))
  }

  lemma {:induction false} LoadAppend(env: map<string, string>, a: seq<string>, b: seq<string>)
    ensures Load(env, a + b) == Load(Load(env, a), b)
    decreases a
  {
    if a == [] {
      assert a + b == b;
    } else {
      assert (a + b)[0] == a[0];
      assert (a + b)[1..] == a[1..] + b;
      LoadAppend(Enter(env, a[0]), a[1..], b);
    }
  }

  /** `loadEnv`: splits the text into lines and enters each line's key and value,
      a later line overwriting an earlier one with the same key. */
  method LoadEnv(content: string) returns (env: map<string, string>)
    ensures env == EnvOf(content)
  {
    var lines := Split(content, '\n');
    env := map[];
    var i := 0;
    while i < |lines|
      invariant 0 <= i <= |lines|
      invariant env == Load(map[], lines[..i])
    {
      var line := lines[i];
      LoadAppend(map[], lines[..i], [line]);
      assert lines[..i + 1] == lines[..i] + [line];
      if line != "" && !StartsWith(line, "#") {
        var parts := Split(line, '=');
        var key := parts[0];
        if key != "" {
          env := env[Trim(key) := Trim(Join(parts[1..], '='))];
        }
      }
      i := i + 1;
    }
    assert lines[..|lines|] == lines;
  }

  /** Line `i` enters `key`. */
  predicate Defines(lines: seq<string>, i: int, key: string) {
    0 <= i < |lines| && ParseLine(lines[i]).Some? && ParseLine(lines[i]).value.0 == key
  }

  /** A key is in the dictionary exactly when it was there before or some line enters
      it. */
  lemma {:induction false} LoadKeys(env: map<string, string>, lines: seq<string>, key: string)
    ensures key in Load(env, lines) <==> key in env || exists i :: Defines(lines, i, key)
    decreases lines
  {
    if lines != [] {
      var next := Enter(env, lines[0]);
      assert key in next <==> key in env || Defines(lines, 0, key);
      LoadKeys(next, lines[1..], key);
      if exists i :: Defines(lines[1..], i, key) {
        var i :| Defines(lines[1..], i, key);
        assert Defines(lines, i + 1, key);
      }
      if exists i :: Defines(lines, i, key) {
        var i :| Defines(lines, i, key);
        if i > 0 {
          assert Defines(lines[1..], i - 1, key);
        }
      }
    }
  }

  /** Lines that do not enter `key` leave its value alone. */
  lemma {:induction false} LoadKeeps(env: map<string, string>, lines: seq<string>, key: string)
    requires key in env
    requires forall i :: 0 <= i < |lines| ==> !Defines(lines, i, key)
    ensures key in Load(env, lines) && Load(env, lines)[key] == env[key]
    decreases lines
  {
    if lines != [] {
      assert !Defines(lines, 0, key);
      var next := Enter(env, lines[0]);
      assert key in next && next[key] == env[key];
      forall i | 0 <= i < |lines[1..]| ensures !Defines(lines[1..], i, key) {
        assert !Defines(lines, i + 1, key);
      }
      LoadKeeps(next, lines[1..], key);
    }
  }

  /** After the lines up to and including one that enters `key`, the key holds that
      line's value. */
  lemma LoadThrough(env: map<string, string>, lines: seq<string>, i: nat, key: string, value: string)
    requires i < |lines| && ParseLine(lines[i]) == Some((key, value))
    ensures key in Load(env, lines[..i + 1]) && Load(env, lines[..i + 1])[key] == value
  {
    var line := lines[i];
    TakeOneMore(lines, i);
    LoadAppend(env, lines[..i], [line]);
    LoadOne(Load(env, lines[..i]), line);
  }

  /** Reading one line is entering it. */
  lemma LoadOne(env: map<string, string>, line: string)
    ensures Load(env, [line]) == Enter(env, line)
  {
    assert [line][1..] == [];
  }

  /** The last line that enters a key decides its value. */
  lemma LastLineWins(env: map<string, string>, lines: seq<string>, i: nat, key: string, value: string)
    requires i < |lines| && ParseLine(lines[i]) == Some((key, value))
    requires forall j :: i < j < |lines| ==> !Defines(lines, j, key)
    ensures key in Load(env, lines) && Load(env, lines)[key] == value
  {
    var before, after := lines[..i + 1], lines[i + 1..];
    TakeDrop(lines, i + 1);
    LoadAppend(env, before, after);
    LoadThrough(env, lines, i, key, value);
    forall j | 0 <= j < |after| ensures !Defines(after, j, key) {
      assert after[j] == lines[i + 1 + j];
      assert !Defines(lines, i + 1 + j, key);
    }
    LoadKeeps(Load(env, before), after, key);
  }

  /** A character the email pattern's runs may hold: neither white space nor `@`. */
  predicate Plain(c: char) { !IsSpace(c) && c != '@' }

  predicate AllPlain(s: string) { forall k :: 0 <= k < |s| ==> Plain(s[k]) }

  /** The shape the email pattern describes: a run, `@`, a run, `.`, a run, each run
      non-empty and made of plain characters. */
  predicate EmailShape(s: string) {
    exists i, j :: 0 < i && i + 1 < j && j + 1 < |s| && s[i] == '@' && s[j] == '.'
      && AllPlain(s[..i]) && AllPlain(s[i + 1..j]) && AllPlain(s[j + 1..])
  }

  function IsAtSign(): char -> bool { (c: char) => c == '@' }

  /** The pattern test as the script performs it: split at the first `@`, then the part
      after it must be plain, at least three long, and hold a `.` neither first nor
      last. */
  function ValidEmail(s: string): bool {
    match FindIndex(s, IsAtSign())
    case None => false
    case Some(i) =>
      var domain := s[i + 1..];
      0 < i && AllPlain(s[..i]) && AllPlain(domain) && 3 <= |domain| && '.' in domain[1..|domain| - 1]
  }

  /** The test accepts exactly the strings of the email shape. */
  lemma ValidEmailIffShape(s: string)
    ensures ValidEmail(s) <==> EmailShape(s)
  {
    if ValidEmail(s) {
      ValidEmailHasShape(s);
    }
    if EmailShape(s) {
      ShapeIsValidEmail(s);
    }
  }

  /** A slice whose characters are all plain is plain. */
  lemma PlainSlice(s: string, lo: nat, hi: nat)
    requires lo <= hi <= |s|
    requires forall m :: lo <= m < hi ==> Plain(s[m])
    ensures AllPlain(s[lo..hi])
  {
    forall m | 0 <= m < hi - lo ensures Plain(s[lo..hi][m]) {
      assert s[lo..hi][m] == s[lo + m];
    }
  }

  /** The characters of a plain slice are plain. */
  lemma PlainChars(s: string, lo: nat, hi: nat)
    requires lo <= hi <= |s| && AllPlain(s[lo..hi])
    ensures forall m :: lo <= m < hi ==> Plain(s[m])
  {
    forall m | lo <= m < hi ensures Plain(s[m]) {
      assert s[m] == s[lo..hi][m - lo];
    }
  }

  lemma ValidEmailHasShape(s: string)
    requires ValidEmail(s)
    ensures EmailShape(s)
  {
    var found := FindIndex(s, IsAtSign());
    var i := found.value;
    assert s[i] == '@' by {
      assert IsAtSign()(s[i]);
    }
    var domain := s[i + 1..];
    assert AllPlain(domain);
    var inner := domain[1..|domain| - 1];
    var k :| 0 <= k < |inner| && inner[k] == '.';
    var j := i + 2 + k;
    assert s[j] == domain[k + 1] == '.';
    DomainParts(s, i, j);
    assert 0 < i && i + 1 < j && j + 1 < |s| && AllPlain(s[..i]);
  }

  /** A plain domain splits at any position into two plain runs around it. */
  lemma DomainParts(s: string, i: nat, j: nat)
    requires i + 1 <= j < |s| && AllPlain(s[i + 1..])
    ensures AllPlain(s[i + 1..j]) && AllPlain(s[j + 1..])
  {
    forall m | i + 1 <= m < |s| ensures Plain(s[m]) {
      assert s[m] == s[i + 1..][m - i - 1];
    }
    PlainSlice(s, i + 1, j);
    PlainSlice(s, j + 1, |s|);
    assert s[j + 1..|s|] == s[j + 1..];
  }

  /** When the characters before an `@` are plain, it is the first one. */
  lemma FirstAtSign(s: string, i: nat)
    requires i < |s| && s[i] == '@' && AllPlain(s[..i])
    ensures FindIndex(s, IsAtSign()) == Some(i)
  {
    assert IsAtSign()(s[i]);
    forall m | 0 <= m < i ensures !IsAtSign()(s[m]) {
      assert s[..i][m] == s[m];
    }
  }

  lemma ShapeIsValidEmail(s: string)
    requires EmailShape(s)
    ensures ValidEmail(s)
  {
    var i, j :| 0 < i && i + 1 < j && j + 1 < |s| && s[i] == '@' && s[j] == '.'
      && AllPlain(s[..i]) && AllPlain(s[i + 1..j]) && AllPlain(s[j + 1..]);
    FirstAtSign(s, i);
    DomainPlain(s, i, j);
    DotInside(s, i, j);
    ValidEmailAt(s, i);
  }

  /** The runs around the `.` and the `.` itself make a plain domain. */
  lemma DomainPlain(s: string, i: nat, j: nat)
    requires i + 1 < j < |s| && s[j] == '.' && AllPlain(s[i + 1..j]) && AllPlain(s[j + 1..])
    ensures AllPlain(s[i + 1..])
  {
    PlainChars(s, i + 1, j);
    assert s[j + 1..|s|] == s[j + 1..];
    PlainChars(s, j + 1, |s|);
    PlainSlice(s, i + 1, |s|);
    assert s[i + 1..|s|] == s[i + 1..];
  }

  /** A `.` strictly inside the domain lies in the domain without its ends. */
  lemma DotInside(s: string, i: nat, j: nat)
    requires i + 1 < j && j + 1 < |s| && s[j] == '.'
    ensures '.' in s[i + 1..][1..|s| - i - 2]
  {
    var inner := s[i + 1..][1..|s| - i - 2];
    assert inner[j - i - 2] == s[j];
  }

  lemma ValidEmailAt(s: string, i: nat)
    requires FindIndex(s, IsAtSign()) == Some(i)
    requires 0 < i && AllPlain(s[..i]) && AllPlain(s[i + 1..]) && 3 <= |s[i + 1..]|
    requires '.' in s[i + 1..][1..|s| - i - 2]
    ensures ValidEmail(s)
  {
  }

  /** How the script's start ends: an exit with status 1 and a message, or on to the
      promotion of `email`. */
  datatype Outcome = Exit(code: int, message: string) | Promote(url: string, serviceKey: string, email: string)

  const MissingSettings: string := "Error: Missing NEXT_PUBLIC_SUPABASE_URL or SUPABASE_SERVICE_ROLE_KEY in .env"
  const MissingEmail: string := "\n\U{274C} Error: Email address is required\n"
  const InvalidEmail: string := "\n\U{274C} Error: Invalid email address format\n"

  /** A setting that is missing or empty counts as absent. */
  function Setting(env: map<string, string>, key: string): string {
    if key in env then env[key] else ""
  }

  /** The script's top level: first both Supabase settings must be non-empty, then the
      first argument after the script's path must be present and have the email shape. */
  function Start(env: map<string, string>, argv: seq<string>): (r: Outcome)
    ensures r.Promote? <==> Setting(env, "NEXT_PUBLIC_SUPABASE_URL") != "" && Setting(env, "SUPABASE_SERVICE_ROLE_KEY") != ""
                            && |argv| > 2 && EmailShape(argv[2])
    ensures r.Promote? ==> r.email == argv[2] && r.url == env["NEXT_PUBLIC_SUPABASE_URL"]
                           && r.serviceKey == env["SUPABASE_SERVICE_ROLE_KEY"]
    ensures r.Exit? ==> r.code == 1
    ensures (Setting(env, "NEXT_PUBLIC_SUPABASE_URL") == "" || Setting(env, "SUPABASE_SERVICE_ROLE_KEY") == "")
            ==> r == Exit(1, MissingSettings)
    ensures (Setting(env, "NEXT_PUBLIC_SUPABASE_URL") != "" && Setting(env, "SUPABASE_SERVICE_ROLE_KEY") != ""
             && (|argv| <= 2 || argv[2] == "")) ==> r == Exit(1, MissingEmail)
    ensures (Setting(env, "NEXT_PUBLIC_SUPABASE_URL") != "" && Setting(env, "SUPABASE_SERVICE_ROLE_KEY") != ""
             && |argv| > 2 && argv[2] != "" && !EmailShape(argv[2])) ==> r == Exit(1, InvalidEmail)
  {
    var url := Setting(env, "NEXT_PUBLIC_SUPABASE_URL");
    var serviceKey := Setting(env, "SUPABASE_SERVICE_ROLE_KEY");
    var email := if |argv| > 2 then argv[2] else "";
    if url == "" || serviceKey == "" then Exit(1, MissingSettings)
    else if email == "" then Exit(1, MissingEmail)
    else
      ValidEmailIffShape(email);
      if !ValidEmail(email) then Exit(1, InvalidEmail)
      else Promote(url, serviceKey, email)
  }
}
