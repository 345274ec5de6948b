/** src/compiler/variable-access.ts: how generated message code reads an input variable `name`
    of the input object `i`. */
module VariableAccess {

  /** A character the identifier pattern accepts first: `[A-Za-z_$]`. */
  predicate IsIdentifierStart(c: char) {
    ('A' <= c <= 'Z') || ('a' <= c <= 'z') || c == '_' || c == '$'
  }

  /** A character the identifier pattern accepts after the first: `[A-Za-z0-9_$]`. */
  predicate IsIdentifierPart(c: char) {
    IsIdentifierStart(c) || ('0' <= c <= '9')
  }

  /** The `[A-Za-z0-9_$]*` part of the pattern, matched up to the end of the input. */
  function AllIdentifierParts(s: string): (r: bool)
    ensures r <==> forall i :: 0 <= i < |s| ==> IsIdentifierPart(s[i])
  {
    if s == [] then true
    else IsIdentifierPart(s[0]) && AllIdentifierParts(s[1..])
  }

  /** `isValidIdentifier`: the whole name matches `^[A-Za-z_$][A-Za-z0-9_$]*$`. */
  function IsValidIdentifier(name: string): (r: bool)
    ensures r <==> |name| > 0 && IsIdentifierStart(name[0]) &&
                   forall i :: 1 <= i < |name| ==> IsIdentifierPart(name[i])
  {
    |name| > 0 && IsIdentifierStart(name[0]) && AllIdentifierParts(name[1..])
  }

  /** `quotePropertyKey`: the escaped name between double quotes; `escape` is
      `escapeForDoubleQuoteString`. */
  function QuotePropertyKey(name: string, escape: string -> string): (r: string)
    ensures |r| == |escape(name)| + 2
    ensures r[0] == '"' && r[|r| - 1] == '"' && r[1..|r| - 1] == escape(name)
  {
    "\"" + escape(name) + "\""
  }

  /** `compileInputAccess`: dot access for a valid identifier, bracket access with the quoted key
      otherwise; optional chaining in both forms. */
  function CompileInputAccess(name: string, escape: string -> string): (r: string)
    ensures |r| >= 3 && r[..3] == "i?."
    ensures IsValidIdentifier(name) ==> r[3..] == name
    ensures !IsValidIdentifier(name) ==> r[3..] == "[" + QuotePropertyKey(name, escape) + "]"
  {
    if IsValidIdentifier(name) then "i?." + name
    else "i?.[" + QuotePropertyKey(name, escape) + "]"
  }

  // ---------------------------------------------------------------------------------------------
  // What the rules promise

  lemma EmptyIsNotIdentifier()
    ensures !IsValidIdentifier("")
  {
  }

  /** The placeholder name "half!" of the incremental-migration example needs bracket access. */
  lemma HalfBangIsNotIdentifier(name: string)
    requires name == "half!"
    ensures !IsValidIdentifier(name)
  {
    assert !IsIdentifierPart(name[4]);
  }

  /** A name with a leading digit is not an identifier, whatever follows. */
  lemma LeadingDigitIsNotIdentifier(name: string)
    requires |name| > 0 && '0' <= name[0] <= '9'
    ensures !IsValidIdentifier(name)
  {
  }

  /** Appending identifier characters (letters, digits, `_`, `$`) to a valid identifier keeps it
      valid. */
  lemma {:induction false} IdentifierExtend(name: string, suffix: string)
    requires IsValidIdentifier(name) && AllIdentifierParts(suffix)
    ensures IsValidIdentifier(name + suffix)
  {
    assert (name + suffix)[0] == name[0];
    forall i | 1 <= i < |name + suffix| ensures IsIdentifierPart((name + suffix)[i]) {
      if i < |name| {
        assert (name + suffix)[i] == name[i];
      } else {
        assert (name + suffix)[i] == suffix[i - |name|];
      }
    }
  }

  /** The two forms are told apart by the character after "i?.": a bracket exactly for names
      that are not identifiers. */
  lemma AccessFormDecides(name: string, escape: string -> string)
    ensures var r := CompileInputAccess(name, escape);
      r[3] == '[' <==> !IsValidIdentifier(name)
  {
  }

  /** The generated access determines the name: two names that give the same access are the
      same name, provided the escape is injective. */
  lemma AccessInjective(a: string, b: string, escape: string -> string)
    requires forall x, y :: escape(x) == escape(y) ==> x == y
    requires CompileInputAccess(a, escape) == CompileInputAccess(b, escape)
    ensures a == b
  {
    var r := CompileInputAccess(a, escape);
    AccessFormDecides(a, escape);
    AccessFormDecides(b, escape);
    if !IsValidIdentifier(a) {
      var qa := QuotePropertyKey(a, escape);
      var qb := QuotePropertyKey(b, escape);
      assert r[3..] == "[" + qa + "]" == "[" + qb + "]";
      assert qa == ("[" + qa + "]")[1..|qa| + 1];
      assert qb == ("[" + qb + "]")[1..|qb| + 1];
      assert escape(a) == qa[1..|qa| - 1] == qb[1..|qb| - 1] == escape(b);
    }
  }
}
