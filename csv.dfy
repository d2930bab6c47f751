/** The text of the CSV export (`GET /api/admin/feedback/export`): each
    feedback record with its student and course becomes one line of twelve
    comma-joined fields under a fixed header. Four fields are wrapped in
    double quotes, but embedded quotes are not doubled, so the output is not
    RFC 4180 CSV; what is proved here is what the code builds. */
module Csv {
  import opened Common
  import opened Text
  import opened Models

  /** `message.replace(/\n/g, " ").replace(/,/g, ";")` */
  function CleanMessage(m: string): (r: string)
    ensures |r| == |m|
    ensures '\n' !in r && ',' !in r
    ensures forall i :: 0 <= i < |m| ==> r[i] == (if m[i] == '\n' then ' ' else if m[i] == ',' then ';' else m[i])
  {
    ReplaceAll(ReplaceAll(m, '\n', ' '), ',', ';')
  }

  /** A message that needs no cleaning is left alone, so cleaning twice is
      cleaning once. */
  lemma CleanMessageIdempotent(m: string)
    ensures '\n' !in m && ',' !in m ==> CleanMessage(m) == m
    ensures CleanMessage(CleanMessage(m)) == CleanMessage(m)
  {
    var c := CleanMessage(m);
    assert CleanMessage(c) == c by {
      assert forall i :: 0 <= i < |c| ==> c[i] != '\n' && c[i] != ',';
    }
    assert '\n' !in m && ',' !in m ==> c == m by {
      if '\n' !in m && ',' !in m {
        assert forall i :: 0 <= i < |m| ==> m[i] != '\n' && m[i] != ',';
      }
    }
  }

  /** The ISO text splits at its `T` into the date and the rest, and the
      rest splits at its `.` into the time and the fraction. */
  lemma IsoPieces(t: DateTime)
    requires ValidDateTime(t)
    ensures |Split(IsoString(t), 'T')| >= 2
    ensures Split(IsoString(t), 'T')[0] == IsoDate(t)
    ensures Split(Split(IsoString(t), 'T')[1], '.')[0] == IsoTime(t)
  {
    var frac := Digits(t.millis, 10, 3) + "Z";
    var rest := IsoTime(t) + "." + frac;
    assert IsoString(t) == IsoDate(t) + ['T'] + rest;
    FirstPiece(IsoDate(t), 'T', rest);
    DecimalDigitsAreDigits(t.millis, 3);
    assert 'T' !in rest by {
      forall i | 0 <= i < |rest| ensures rest[i] != 'T' {
        if i > |IsoTime(t)| {
          assert rest[i] == frac[i - |IsoTime(t)| - 1];
        } else if i < |IsoTime(t)| {
          assert rest[i] == IsoTime(t)[i];
        }
      }
    }
    assert Split(rest, 'T') == [rest];
    assert rest == IsoTime(t) + ['.'] + frac;
    FirstPiece(IsoTime(t), '.', frac);
  }

  /** `createdAt.toISOString().split("T")[0]`: the `YYYY-MM-DD` date. */
  function SubmittedDate(t: DateTime): (r: string)
    requires ValidDateTime(t)
    ensures r == IsoDate(t)
  {
    IsoPieces(t);
    Split(IsoString(t), 'T')[0]
  }

  /** `createdAt.toISOString().split("T")[1].split(".")[0]`: the `HH:mm:ss` time. */
  function SubmittedTime(t: DateTime): (r: string)
    requires ValidDateTime(t)
    ensures r == IsoTime(t)
  {
    IsoPieces(t);
    Split(Split(IsoString(t), 'T')[1], '.')[0]
  }

  /** `` `"${s}"` ``: wrapped in double quotes, nothing escaped. */
  function Quoted(s: string): string { "\"" + s + "\"" }

  /** `String(n)` */
  function NumberText(n: int): string {
    if n < 0 then "-" + Decimal(-n) else Decimal(n)
  }

  /** The twelve fields of one feedback record. */
  function Fields(f: Feedback, u: User, c: Course): (r: seq<string>)
    requires ValidDateTime(f.createdAt)
  {
    [ObjectIdText(f.id), Quoted(u.name), u.email, u.phone, Quoted(c.name), c.code, Quoted(c.instructor),
     NumberText(c.credits), NumberText(f.rating), Quoted(CleanMessage(f.message)),
     SubmittedDate(f.createdAt), SubmittedTime(f.createdAt)]
  }

  /** One line: the fields joined by commas. */
  function Line(f: Feedback, u: User, c: Course): string
    requires ValidDateTime(f.createdAt)
  {
    Join(Fields(f, u, c), ",")
  }

  const Header: string :=
    "Feedback ID,Student Name,Student Email,Student Phone,Course Name,Course Code,Instructor,Credits,Rating,Feedback Message,Submitted Date,Submitted Time\n"

  /** `header + lines.join("\n")` */
  function Document(lines: seq<string>): string {
    Header + Join(lines, "\n")
  }

  predicate NoComma(s: string) { ',' !in s }

  /** Digits in any base up to 16 are `0`-`9` or `a`-`f`. */
  lemma {:induction false} DigitsAreHex(n: nat, base: nat, width: nat)
    requires 2 <= base <= 16
    ensures forall i :: 0 <= i < width ==> IsDigit(Digits(n, base, width)[i]) || 'a' <= Digits(n, base, width)[i] <= 'f'
  {
    if width > 0 {
      DigitsAreHex(n / base, base, width - 1);
      var r := Digits(n, base, width);
      assert r == Digits(n / base, base, width - 1) + [DigitChar(n % base)];
    }
  }

  lemma NumberTextNoComma(n: int)
    ensures NoComma(NumberText(n))
  {
    var d := if n < 0 then Decimal(-n) else Decimal(n);
    assert forall i :: 0 <= i < |d| ==> IsDigit(d[i]);
    var r := NumberText(n);
    forall i | 0 <= i < |r| ensures r[i] != ',' {
      if n < 0 && i > 0 {
        assert r[i] == d[i - 1];
      } else if n >= 0 {
        assert r[i] == d[i];
      }
    }
  }

  lemma IdTextNoComma(id: Id)
    ensures NoComma(ObjectIdText(id))
  {
    DigitsAreHex(id, 16, 24);
  }

  lemma ContactNoComma(u: User)
    requires ValidUser(u)
    ensures NoComma(u.email) && NoComma(u.phone)
  {
    EmailShape(u.email);
  }

  lemma QuotedNoComma(s: string)
    requires NoComma(s)
    ensures NoComma(Quoted(s))
  {
    var q := Quoted(s);
    forall i | 0 <= i < |q| ensures q[i] != ',' {
      if 0 < i < |q| - 1 {
        assert q[i] == s[i - 1];
      }
    }
  }

  /** The fields the code produces hold no comma, except possibly the
      student's name and the course's name, code and instructor: the id, the
      numbers, the dates, the cleaned message, and a schema-valid email and
      phone are comma-free. */
  lemma FixedFieldsHaveNoComma(f: Feedback, u: User, c: Course)
    requires ValidDateTime(f.createdAt) && ValidUser(u)
    ensures var r := Fields(f, u, c);
            && NoComma(r[0]) && NoComma(r[2]) && NoComma(r[3]) && NoComma(r[7]) && NoComma(r[8])
            && NoComma(r[9]) && NoComma(r[10]) && NoComma(r[11])
  {
    IdTextNoComma(f.id);
    ContactNoComma(u);
    NumberTextNoComma(c.credits);
    NumberTextNoComma(f.rating);
    QuotedNoComma(CleanMessage(f.message));
  }

  /** Splitting a line at its commas gives back the twelve fields exactly
      when none of the four free-text fields (student name, course name,
      course code, instructor) holds a comma; the code neither escapes nor
      checks this. */
  lemma LineSplits(f: Feedback, u: User, c: Course)
    requires ValidDateTime(f.createdAt) && ValidUser(u)
    requires NoComma(u.name) && NoComma(c.name) && NoComma(c.code) && NoComma(c.instructor)
    ensures Split(Line(f, u, c), ',') == Fields(f, u, c)
    ensures |Split(Line(f, u, c), ',')| == 12
  {
    FixedFieldsHaveNoComma(f, u, c);
    var r := Fields(f, u, c);
    QuotedNoComma(u.name);
    QuotedNoComma(c.name);
    QuotedNoComma(c.instructor);
    assert forall p :: p in r ==> ',' !in p;
    SplitJoin(r, ',');
  }
}
