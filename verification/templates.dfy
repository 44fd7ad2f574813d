/**
  Placeholder substitution in an HTML template: three literal
  `str.replace` calls applied one after the other, for the vendor name,
  the advisor name and the advisor email.
 */
module Templates {
  import opened Text

  const CLIENT_TOKEN := "{{ cliente }}"
  const ADVISOR_TOKEN := "{{ asesor }}"
  const ADVISOR_EMAIL_TOKEN := "{{ correoAsesor }}"

  /** The HTML body sent to one vendor; a template without placeholders is sent verbatim, and a missing placeholder is no error. */
  function Render(template: string, client: string, advisor: string, advisorEmail: string): (html: string)
    ensures !Contains(template, CLIENT_TOKEN) && !Contains(template, ADVISOR_TOKEN) && !Contains(template, ADVISOR_EMAIL_TOKEN)
            ==> html == template
  {
    ReplaceAll(ReplaceAll(ReplaceAll(template, CLIENT_TOKEN, client), ADVISOR_TOKEN, advisor), ADVISOR_EMAIL_TOKEN, advisorEmail)
  }

  /**
    The vendor's name goes where the client placeholder stood: a template
    holding that placeholder once, around text the other two passes leave
    alone, becomes the text with the name in its place.
   */
  lemma RenderFillsClient(a: string, b: string, client: string, advisor: string, advisorEmail: string)
    requires forall i :: 0 <= i < |a| ==> !StartsWith((a + CLIENT_TOKEN + b)[i..], CLIENT_TOKEN)
    requires !Contains(b, CLIENT_TOKEN)
    requires !Contains(a + client + b, ADVISOR_TOKEN)
    requires !Contains(a + client + b, ADVISOR_EMAIL_TOKEN)
    ensures Render(a + CLIENT_TOKEN + b, client, advisor, advisorEmail) == a + client + b
  {
    ReplaceFirst(a, b, CLIENT_TOKEN, client);
  }

  /**
    The passes are chained: a vendor name that itself holds the advisor
    placeholder once has it replaced by the advisor's name in the second
    pass, and the rest of the name is kept.
   */
  lemma RenderSubstitutesInsideName(c: string, d: string, advisor: string, advisorEmail: string)
    requires forall i :: 0 <= i < |c| ==> !StartsWith((c + ADVISOR_TOKEN + d)[i..], ADVISOR_TOKEN)
    requires !Contains(d, ADVISOR_TOKEN)
    requires !Contains(c + advisor + d, ADVISOR_EMAIL_TOKEN)
    ensures Render(CLIENT_TOKEN, c + ADVISOR_TOKEN + d, advisor, advisorEmail) == c + advisor + d
  {
    ReplaceWhole(CLIENT_TOKEN, c + ADVISOR_TOKEN + d);
    ReplaceFirst(c, d, ADVISOR_TOKEN, advisor);
  }

  /** A string that is exactly the pattern becomes exactly the replacement. */
  lemma ReplaceWhole(pat: string, rep: string)
    requires pat != []
    ensures ReplaceAll(pat, pat, rep) == rep
  {
    assert pat[..|pat|] == pat;
    assert pat[|pat|..] == [];
    assert rep + [] == rep;
  }
}
