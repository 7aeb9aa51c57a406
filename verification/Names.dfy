/** The names of queues and job types: validate.go. A string is the sequence of its bytes. */
module Names {
  import opened Wrappers

  // --- Regular expressions ---

  datatype Regex =
    | Class(member: char -> bool)
    | Cat(first: Regex, second: Regex)
    | Opt(once: Regex)
    | Star(each: Regex)

  /** Does the expression match the whole string? */
  predicate Matches(r: Regex, s: string)
    decreases r, |s|
  {
    match r
    case Class(member) => |s| == 1 && member(s[0])
    case Cat(first, second) => exists i :: 0 <= i <= |s| && Matches(first, s[..i]) && Matches(second, s[i..])
    case Opt(once) => s == [] || Matches(once, s)
    case Star(each) => s == [] || exists i :: 0 < i <= |s| && Matches(each, s[..i]) && Matches(r, s[i..])
  }

  predicate Letter(c: char) { 'a' <= c <= 'z' }

  predicate Digit(c: char) { '0' <= c <= '9' }

  predicate Alnum(c: char) { Letter(c) || Digit(c) }

  predicate Sep(c: char) { c == '-' || c == '.' }

  predicate Word(c: char) { Alnum(c) || c == '_' }

  function Plus(r: Regex): Regex { Cat(r, Star(r)) }

  const QueuePart := Cat(Star(Class(Alnum)), Cat(Opt(Class(Sep)), Plus(Class(Alnum))))

  /** ^[a-z0-9]([a-z0-9]*[-.]?[a-z0-9]+)*$ */
  const QueuePattern := Cat(Class(Alnum), Star(QueuePart))

  const Segment := Cat(Class(Letter), Star(Class(Word)))

  const TypePart := Cat(Class(c => c == '.'), Segment)

  /** ^[a-z][a-z0-9_]*(\.[a-z][a-z0-9_]*)*$ */
  const TypePattern := Cat(Segment, Star(TypePart))

  lemma CatOf(a: Regex, b: Regex, u: string, v: string)
    requires Matches(a, u) && Matches(b, v)
    ensures Matches(Cat(a, b), u + v)
  {
    var s := u + v;
    assert s[..|u|] == u && s[|u|..] == v;
  }

  lemma StarOf(a: Regex, u: string, v: string)
    requires u != [] && Matches(a, u) && Matches(Star(a), v)
    ensures Matches(Star(a), u + v)
  {
    var s := u + v;
    assert s[..|u|] == u && s[|u|..] == v;
  }

  lemma CatSplits(a: Regex, b: Regex, s: string) returns (u: string, v: string)
    requires Matches(Cat(a, b), s)
    ensures s == u + v && Matches(a, u) && Matches(b, v)
  {
    var i :| 0 <= i <= |s| && Matches(a, s[..i]) && Matches(b, s[i..]);
    u, v := s[..i], s[i..];
  }

  lemma StarSplits(a: Regex, s: string) returns (u: string, v: string)
    requires Matches(Star(a), s) && s != []
    ensures s == u + v && u != [] && Matches(a, u) && Matches(Star(a), v)
  {
    var i :| 0 < i <= |s| && Matches(a, s[..i]) && Matches(Star(a), s[i..]);
    u, v := s[..i], s[i..];
  }

  predicate All(p: char -> bool, s: string) { forall i :: 0 <= i < |s| ==> p(s[i]) }

  lemma {:induction false} StarOfClass(p: char -> bool, s: string)
    ensures Matches(Star(Class(p)), s) <==> All(p, s)
    decreases |s|
  {
    if s != [] {
      if Matches(Star(Class(p)), s) {
        var u, v := StarSplits(Class(p), s);
        StarOfClass(p, v);
      }
      if All(p, s) {
        StarOfClass(p, s[1..]);
        StarOf(Class(p), [s[0]], s[1..]);
        assert [s[0]] + s[1..] == s;
      }
    }
  }

  // --- Queue names ---

  predicate NoTwoSeps(s: string) { forall i :: 0 < i < |s| ==> !(Sep(s[i - 1]) && Sep(s[i])) }

  predicate AlnumOrSep(c: char) { Alnum(c) || Sep(c) }

  /** What may follow an alphanumeric character. */
  predicate QueueTail(s: string) {
    All(AlnumOrSep, s) && NoTwoSeps(s) && (s != [] ==> Alnum(s[|s| - 1]))
  }

  predicate QueueName(s: string) {
    && s != [] && All(AlnumOrSep, s) && NoTwoSeps(s)
    && Alnum(s[0]) && Alnum(s[|s| - 1])
  }

  lemma PlusOfClass(p: char -> bool, s: string)
    ensures Matches(Plus(Class(p)), s) <==> s != [] && All(p, s)
  {
    if Matches(Plus(Class(p)), s) {
      var u, v := CatSplits(Class(p), Star(Class(p)), s);
      StarOfClass(p, v);
    }
    if s != [] && All(p, s) {
      StarOfClass(p, s[1..]);
      CatOf(Class(p), Star(Class(p)), [s[0]], s[1..]);
      assert [s[0]] + s[1..] == s;
    }
  }

  lemma OptOfClass(p: char -> bool, s: string)
    ensures Matches(Opt(Class(p)), s) <==> s == [] || (|s| == 1 && p(s[0]))
  {
  }

  lemma PartSplits(s: string) returns (a: string, o: string, p: string)
    requires Matches(QueuePart, s)
    ensures s == a + (o + p) && All(Alnum, a) && (o == [] || (|o| == 1 && Sep(o[0]))) && p != [] && All(Alnum, p)
  {
    var t;
    a, t := CatSplits(QueuePart.first, QueuePart.second, s);
    o, p := CatSplits(QueuePart.second.first, QueuePart.second.second, t);
    StarOfClass(Alnum, a);
    OptOfClass(Sep, o);
    PlusOfClass(Alnum, p);
  }

  lemma PartIsTail(s: string)
    requires Matches(QueuePart, s)
    ensures QueueTail(s)
  {
    var a, o, p := PartSplits(s);
    TailsJoin(o, p);
    TailsJoin(a, o + p);
  }

  lemma TailsJoin(u: string, v: string)
    requires All(AlnumOrSep, u) && NoTwoSeps(u) && QueueTail(v)
    requires u == [] || v == [] || !Sep(u[|u| - 1]) || !Sep(v[0])
    requires v == [] ==> QueueTail(u)
    ensures QueueTail(u + v)
  {
  }

  /** An alphanumeric character, with or without a separator before it, is a part. */
  lemma ShortPart(o: string, c: char)
    requires o == [] || (|o| == 1 && Sep(o[0]))
    requires Alnum(c)
    ensures Matches(QueuePart, o + [c])
  {
    OptOfClass(Sep, o);
    PlusOfClass(Alnum, [c]);
    StarOfClass(Alnum, []);
    CatOf(QueuePart.second.first, QueuePart.second.second, o, [c]);
    CatOf(QueuePart.first, QueuePart.second, [], o + [c]);
    assert [] + (o + [c]) == o + [c];
  }

  lemma FirstPart(s: string) returns (u: string, v: string)
    requires s != [] && QueueTail(s)
    ensures s == u + v && u != [] && Matches(QueuePart, u) && QueueTail(v)
  {
    if Alnum(s[0]) {
      u, v := [s[0]], s[1..];
      ShortPart([], s[0]);
      assert [] + [s[0]] == u;
    } else {
      u, v := [s[0], s[1]], s[2..];
      ShortPart([s[0]], s[1]);
      assert [s[0]] + [s[1]] == u;
    }
  }

  /** Through the nested star, in both directions. */
  lemma {:induction false} StarOfParts(s: string)
    ensures Matches(Star(QueuePart), s) <==> QueueTail(s)
    decreases |s|
  {
    if s != [] {
      if Matches(Star(QueuePart), s) {
        var u, v := StarSplits(QueuePart, s);
        PartIsTail(u);
        StarOfParts(v);
        TailsJoin(u, v);
      }
      if QueueTail(s) {
        var u, v := FirstPart(s);
        StarOfParts(v);
        StarOf(QueuePart, u, v);
      }
    }
  }

  /**
   The queue pattern denotes the non-empty strings of lower-case letters, digits and separators that
   start and end alphanumeric and have no two separators in a row.
   */
  lemma QueuePatternIff(s: string)
    ensures Matches(QueuePattern, s) <==> QueueName(s)
  {
    if Matches(QueuePattern, s) {
      var u, v := CatSplits(Class(Alnum), Star(QueuePart), s);
      StarOfParts(v);
      assert QueueTail(u);
      TailsJoin(u, v);
    }
    if QueueName(s) {
      StarOfParts(s[1..]);
      CatOf(Class(Alnum), Star(QueuePart), [s[0]], s[1..]);
      assert [s[0]] + s[1..] == s;
    }
  }

  /** One pass over the characters; `afterSep` is whether the last one was a separator. */
  predicate ScanQueue(afterSep: bool, s: string)
    decreases |s|
  {
    if s == [] then !afterSep
    else if Sep(s[0]) then !afterSep && ScanQueue(true, s[1..])
    else Alnum(s[0]) && ScanQueue(false, s[1..])
  }

  lemma {:induction false} ScanIff(afterSep: bool, s: string)
    ensures ScanQueue(afterSep, s) <==> QueueTail(s) && (afterSep ==> s != [] && Alnum(s[0]))
    decreases |s|
  {
    if s != [] {
      ScanIff(Sep(s[0]), s[1..]);
      assert forall i :: 0 < i < |s| ==> s[i] == s[1..][i - 1];
      if QueueTail(s) {
        assert QueueTail(s[1..]);
      }
      if ScanQueue(afterSep, s) {
        assert QueueTail([s[0]] + s[1..]) && [s[0]] + s[1..] == s;
      }
    }
  }

  /** A scanner that begins as if after a separator decides the pattern. */
  lemma ScannerDecides(s: string)
    ensures Matches(QueuePattern, s) <==> ScanQueue(true, s)
  {
    QueuePatternIff(s);
    ScanIff(true, s);
  }

  // --- Job types ---

  predicate TypeChar(c: char) { Word(c) || c == '.' }

  /** Every dot has a letter after it. */
  predicate DotsLead(s: string) { forall i :: 0 <= i < |s| && s[i] == '.' ==> i + 1 < |s| && Letter(s[i + 1]) }

  predicate TypeName(s: string) { s != [] && Letter(s[0]) && All(TypeChar, s) && DotsLead(s) }

  lemma SegmentIff(s: string)
    ensures Matches(Segment, s) <==> s != [] && Letter(s[0]) && All(Word, s)
  {
    if Matches(Segment, s) {
      var u, v := CatSplits(Class(Letter), Star(Class(Word)), s);
      StarOfClass(Word, v);
    }
    if s != [] && Letter(s[0]) && All(Word, s) {
      StarOfClass(Word, s[1..]);
      CatOf(Class(Letter), Star(Class(Word)), [s[0]], s[1..]);
      assert [s[0]] + s[1..] == s;
    }
  }

  lemma TypePartIff(s: string)
    ensures Matches(TypePart, s) <==> s != [] && s[0] == '.' && Matches(Segment, s[1..])
  {
    if Matches(TypePart, s) {
      var u, v := CatSplits(TypePart.first, Segment, s);
      assert s[1..] == v;
    }
    if s != [] && s[0] == '.' && Matches(Segment, s[1..]) {
      CatOf(TypePart.first, Segment, [s[0]], s[1..]);
      assert [s[0]] + s[1..] == s;
    }
  }

  /** Where the first dot is. */
  function FirstDot(s: string): (k: nat)
    ensures k <= |s| && (forall i :: 0 <= i < k ==> s[i] != '.') && (k < |s| ==> s[k] == '.')
  {
    if s == [] || s[0] == '.' then 0 else 1 + FirstDot(s[1..])
  }

  /** What may follow a part of a type. */
  predicate TypeTail(s: string) {
    (s == [] || s[0] == '.') && All(TypeChar, s) && DotsLead(s)
  }

  lemma FirstTypePart(s: string) returns (u: string, v: string)
    requires s != [] && TypeTail(s)
    ensures s == u + v && u != [] && Matches(TypePart, u) && TypeTail(v)
  {
    var k := 1 + FirstDot(s[1..]);
    u, v := s[..k], s[k..];
    assert u[1..] == s[1..k];
    SegmentIff(u[1..]);
    TypePartIff(u);
  }

  lemma TypePartIsTail(u: string, v: string)
    requires Matches(TypePart, u) && TypeTail(v)
    ensures TypeTail(u + v)
  {
    TypePartIff(u);
    SegmentIff(u[1..]);
    DotsJoin(u, v);
  }

  lemma {:induction false} StarOfTypeParts(s: string)
    ensures Matches(Star(TypePart), s) <==> TypeTail(s)
    decreases |s|
  {
    if s != [] {
      if Matches(Star(TypePart), s) {
        var u, v := StarSplits(TypePart, s);
        StarOfTypeParts(v);
        TypePartIsTail(u, v);
      }
      if TypeTail(s) {
        var u, v := FirstTypePart(s);
        StarOfTypeParts(v);
        StarOf(TypePart, u, v);
      }
    }
  }

  lemma DotsJoin(u: string, v: string)
    requires u != [] && All(Word, u[1..]) && TypeChar(u[0]) && (u[0] == '.' ==> |u| > 1 && Letter(u[1]))
    requires All(TypeChar, v) && DotsLead(v)
    ensures All(TypeChar, u + v) && DotsLead(u + v)
  {
    var s := u + v;
    forall i | 0 <= i < |s| ensures TypeChar(s[i]) && (s[i] == '.' ==> i + 1 < |s| && Letter(s[i + 1])) {
      if 0 < i < |u| {
        assert s[i] == u[1..][i - 1];
      } else if |u| <= i {
        assert s[i] == v[i - |u|];
      }
    }
  }

  /** The type pattern denotes the dot-separated names whose parts all begin with a letter. */
  lemma TypePatternIff(s: string)
    ensures Matches(TypePattern, s) <==> TypeName(s)
  {
    if Matches(TypePattern, s) {
      var u, v := CatSplits(Segment, Star(TypePart), s);
      SegmentIff(u);
      StarOfTypeParts(v);
      DotsJoin(u, v);
    }
    if TypeName(s) {
      var k := FirstDot(s);
      SegmentIff(s[..k]);
      StarOfTypeParts(s[k..]);
      CatOf(Segment, Star(TypePart), s[..k], s[k..]);
      assert s[..k] + s[k..] == s;
    }
  }

  // --- Validation ---

  const MAX_TYPE_LENGTH := 255
  const MAX_QUEUE_LENGTH := 128

  datatype Invalid =
    | TypeRequired
    | TypeTooLong(length: nat)
    | TypeMismatch(jobType: string)
    | ArgsMissing
    | QueueTooLong(length: nat)
    | QueueMismatch(queue: string)

  /** `args` is None for a nil slice. */
  function ValidateEnqueueParams<Arg>(jobType: string, args: Option<seq<Arg>>): Result<(), Invalid> {
    if jobType == "" then Err(TypeRequired)
    else if |jobType| > MAX_TYPE_LENGTH then Err(TypeTooLong(|jobType|))
    else if !Matches(TypePattern, jobType) then Err(TypeMismatch(jobType))
    else if args == None then Err(ArgsMissing)
    else Ok(())
  }

  function ValidateQueue(queue: string): Result<(), Invalid> {
    if queue == "" then Ok(())
    else if |queue| > MAX_QUEUE_LENGTH then Err(QueueTooLong(|queue|))
    else if !Matches(QueuePattern, queue) then Err(QueueMismatch(queue))
    else Ok(())
  }

  /** A queue is accepted exactly if it is left out or a name within the length that the scanner accepts. */
  lemma QueueAcceptedIff(queue: string)
    ensures ValidateQueue(queue).Ok? <==> queue == "" || (|queue| <= MAX_QUEUE_LENGTH && ScanQueue(true, queue))
    ensures ScanQueue(true, queue) <==> QueueName(queue)
  {
    ScannerDecides(queue);
    QueuePatternIff(queue);
  }

  lemma TypeAcceptedIff<Arg>(jobType: string, args: Option<seq<Arg>>)
    ensures ValidateEnqueueParams(jobType, args).Ok? <==>
            args.Some? && |jobType| <= MAX_TYPE_LENGTH && TypeName(jobType)
  {
    TypePatternIff(jobType);
  }

  /** The characters that the patterns speak of, by their ASCII codes. */
  lemma Characters(c: char)
    ensures Letter(c) <==> 97 <= c as int <= 122
    ensures Alnum(c) <==> 97 <= c as int <= 122 || 48 <= c as int <= 57
    ensures Word(c) <==> 97 <= c as int <= 122 || 48 <= c as int <= 57 || c as int == 95
    ensures Sep(c) <==> c as int == 45 || c as int == 46
  {
  }

  /** A queue that is not accepted is too long, or else no name. */
  lemma QueueErrors(queue: string)
    ensures ValidateQueue(queue) == Err(QueueTooLong(|queue|)) <==> |queue| > 128
    ensures ValidateQueue(queue) == Err(QueueMismatch(queue)) <==> 0 < |queue| <= 128 && !QueueName(queue)
  {
    QueuePatternIff(queue);
  }

  /** The first of the checks that fails decides the error. */
  lemma TypeErrors<Arg>(jobType: string, args: Option<seq<Arg>>)
    ensures ValidateEnqueueParams(jobType, args) == Err(TypeRequired) <==> jobType == ""
    ensures ValidateEnqueueParams(jobType, args) == Err(TypeTooLong(|jobType|)) <==> |jobType| > 255
    ensures ValidateEnqueueParams(jobType, args) == Err(TypeMismatch(jobType)) <==>
            0 < |jobType| <= 255 && !TypeName(jobType)
    ensures ValidateEnqueueParams(jobType, args) == Err(ArgsMissing) <==>
            |jobType| <= 255 && TypeName(jobType) && args == None
  {
    TypePatternIff(jobType);
  }

  /** What the text of the error for a mismatch asks of a queue. */
  predicate AsTheMessageSays(queue: string) {
    queue != "" && Alnum(queue[0]) && All(AlnumOrSep, queue)
  }

  /** The message asks for too little: a name may also not end in a separator or have two in a row. */
  lemma MessageIsWeaker(queue: string)
    requires AsTheMessageSays(queue) && |queue| <= MAX_QUEUE_LENGTH
    ensures ValidateQueue(queue).Err? <==> Sep(queue[|queue| - 1]) || !NoTwoSeps(queue)
    ensures AsTheMessageSays("a--b") && ValidateQueue("a--b") == Err(QueueMismatch("a--b"))
  {
    QueuePatternIff(queue);
    QueuePatternIff("a--b");
    assert Sep("a--b"[2 - 1]) && Sep("a--b"[2]);
  }
}
