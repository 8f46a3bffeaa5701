/**
 Field-name validation of the schema layer (src/schema/mod.rs).

 `IsValidFieldName` is the function as the source writes it: the unanchored
 pattern `[_a-zA-Z0-9]+` matched anywhere in the name. `IsDocumentedFieldName`
 is the model's reading of the rule in the module documentation (letters,
 digits and `_` only; non-empty because a name needs a character),
 and `IsValidFieldNameAnchored` is the pattern anchored at both ends, which
 decides exactly that rule. The lemmas relate the three.
 */
module FieldName {
  import opened FieldNamePattern

  /** `is_valid_field_name`: the compiled pattern finds a match somewhere in `name`. */
  function IsValidFieldName(name: string): (r: bool)
    ensures r <==> HasMatch(name)
  {
    Find(name).Some?
  }

  /**
   The documented rule: only ASCII letters, digits and `_`. The documentation
   does not mention the empty name; this reading excludes it, as the `+` of the
   anchored pattern does.
   */
  predicate IsDocumentedFieldName(name: string) {
    |name| > 0 && forall k :: 0 <= k < |name| ==> IsFieldChar(name[k])
  }

  /**
   The check as documented: the pattern anchored as `^[_a-zA-Z0-9]+$`, i.e. the
   leftmost-longest match covers the whole name.
   */
  function IsValidFieldNameAnchored(name: string): (r: bool)
    ensures r <==> IsDocumentedFieldName(name)
  {
    assert IsDocumentedFieldName(name) ==> MatchesAt(name, 0, |name|);
    Find(name) == Some(Span(0, |name|))
  }

  /** The implemented check accepts exactly the names holding at least one class character. */
  lemma ValidIffSomeFieldChar(name: string)
    ensures IsValidFieldName(name) <==> exists k :: 0 <= k < |name| && IsFieldChar(name[k])
  {
    HasMatchIffSomeFieldChar(name);
  }

  /** A name with no class character at all (the empty name included) is rejected. */
  lemma NoFieldCharRejected(name: string)
    requires forall k :: 0 <= k < |name| ==> !IsFieldChar(name[k])
    ensures !IsValidFieldName(name)
  {
    ValidIffSomeFieldChar(name);
  }

  /** The empty name is rejected: `+` needs one character. */
  lemma EmptyNameRejected()
    ensures !IsValidFieldName("")
  {
  }

  /** Names made only of characters outside the ASCII class are rejected. */
  lemma SymbolOnlyNamesRejected()
    ensures !IsValidFieldName("-") && !IsValidFieldName(" ") && !IsValidFieldName("é")
  {
  }

  /** Every name the documented rule admits passes the implemented check. */
  lemma DocumentedImpliesValid(name: string)
    requires IsDocumentedFieldName(name)
    ensures IsValidFieldName(name)
  {
  }

  /** The field names of the module's own examples are accepted by both checks. */
  lemma DocExampleNamesAccepted()
    ensures IsValidFieldName("title_options") && IsValidFieldNameAnchored("title_options")
    ensures IsValidFieldName("num_stars") && IsValidFieldNameAnchored("num_stars")
  {
  }

  /** Acceptance survives adding text on either side: the search looks anywhere. */
  lemma ExtensionPreservesValidity(s: string, t: string)
    requires IsValidFieldName(s)
    ensures IsValidFieldName(t + s) && IsValidFieldName(s + t)
  {
    var i, j :| MatchesAt(s, i, j);
    assert MatchesAt(t + s, |t| + i, |t| + j) by {
      forall k | |t| + i <= k < |t| + j ensures IsFieldChar((t + s)[k]) {
        assert (t + s)[k] == s[k - |t|];
      }
    }
    assert MatchesAt(s + t, i, j) by {
      forall k | i <= k < j ensures IsFieldChar((s + t)[k]) {
        assert (s + t)[k] == s[k];
      }
    }
  }

  /**
   The implemented check is strictly more permissive than the documented rule:
   a dash or a space inside the name slips through.
   */
  lemma ValidDoesNotImplyDocumented()
    ensures IsValidFieldName("a-b") && !IsDocumentedFieldName("a-b")
    ensures IsValidFieldName("title options") && !IsDocumentedFieldName("title options")
  {
    assert MatchesAt("a-b", 0, 1);
    assert !IsFieldChar("a-b"[1]);
    assert MatchesAt("title options", 0, 1);
    assert !IsFieldChar("title options"[5]);
  }

  /** The anchored check implies the implemented check and rejects both counterexamples. */
  lemma AnchoredRefinesValid(name: string)
    ensures IsValidFieldNameAnchored(name) ==> IsValidFieldName(name)
    ensures !IsValidFieldNameAnchored("a-b") && !IsValidFieldNameAnchored("title options")
  {
  }

  /**
   Exactly where the two checks disagree: the implemented check accepts and the
   anchored one rejects a name iff it holds both a class character and a
   character outside the class.
   */
  lemma ChecksDifferExactly(name: string)
    ensures IsValidFieldName(name) && !IsValidFieldNameAnchored(name) <==>
              (exists k :: 0 <= k < |name| && IsFieldChar(name[k])) &&
              (exists k :: 0 <= k < |name| && !IsFieldChar(name[k]))
  {
    ValidIffSomeFieldChar(name);
  }
}
