/** `PostProcess.map_category_to_camelcase`, which rewrites the lower-case
    labels of string-labelled entity records through a fixed dictionary. */
module CamelCase {
  import opened Base
  import Types

  /** An entity whose label is still a plain string, as the post-processing
      rules handle it before the labels are exported. */
  datatype LabelledSpan = LabelledSpan(text: string, start: int, name: string, source: Types.Source)

  /** The keys of the dictionary, in its order. */
  datatype Key =
    | Adresse | Cadastre | PersonneMorale | PersonnePhysicoMorale
    | PersonnePhysiquePrenom | PersonnePhysiqueNom | PersonnePhysique
    | ProfessionnelAvocat | ProfessionnelMagistratGreffier
    | DateDeNaissance | DateDeDeces | DateDeMariage | TelephoneFaxEmail | NoInsee
    | PlaqueDImmatriculation | CompteBancaire | EtablissementMineur | AutreNumero | AutreLieu

  const AllKeys: seq<Key> := [
    Adresse, Cadastre, PersonneMorale, PersonnePhysicoMorale,
    PersonnePhysiquePrenom, PersonnePhysiqueNom, PersonnePhysique,
    ProfessionnelAvocat, ProfessionnelMagistratGreffier,
    DateDeNaissance, DateDeDeces, DateDeMariage, TelephoneFaxEmail, NoInsee,
    PlaqueDImmatriculation, CompteBancaire, EtablissementMineur, AutreNumero, AutreLieu
  ]

  function KeyName(k: Key): string {
    match k
    case Adresse => "adresse"
    case Cadastre => "cadastre"
    case PersonneMorale => "personnemorale"
    case PersonnePhysicoMorale => "personnephysicomorale"
    case PersonnePhysiquePrenom => "personnephysiqueprenom"
    case PersonnePhysiqueNom => "personnephysiquenom"
    case PersonnePhysique => "personnephysique"
    case ProfessionnelAvocat => "professionnelavocat"
    case ProfessionnelMagistratGreffier => "professionnelmagistratgreffier"
    case DateDeNaissance => "datedenaissance"
    case DateDeDeces => "datededeces"
    case DateDeMariage => "datedemariage"
    case TelephoneFaxEmail => "telephonefaxemail"
    case NoInsee => "noinsee"
    case PlaqueDImmatriculation => "plaquedimmatriculation"
    case CompteBancaire => "comptebancaire"
    case EtablissementMineur => "etablissementmineur"
    case AutreNumero => "autrenumero"
    case AutreLieu => "autrelieu"
  }

  /** The dictionary's values as written: the lawyer entry is spelt
      "professionelAvocat", with one "n". */
  function ValueAsWritten(k: Key): string {
    match k
    case ProfessionnelAvocat => "professionelAvocat"
    case _ => Value(k)
  }

  /** The dictionary's values, with the lawyer entry spelt as the category. */
  function Value(k: Key): string {
    match k
    case Adresse => "adresse"
    case Cadastre => "cadastre"
    case PersonneMorale => "personneMorale"
    case PersonnePhysicoMorale => "personnePhysicoMorale"
    case PersonnePhysiquePrenom => "personnePhysique"
    case PersonnePhysiqueNom => "personnePhysique"
    case PersonnePhysique => "personnePhysique"
    case ProfessionnelAvocat => "professionnelAvocat"
    case ProfessionnelMagistratGreffier => "professionnelMagistratGreffier"
    case DateDeNaissance => "dateNaissance"
    case DateDeDeces => "dateDeces"
    case DateDeMariage => "dateMariage"
    case TelephoneFaxEmail => "telephoneFaxEmail"
    case NoInsee => "noInsee"
    case PlaqueDImmatriculation => "plaqueImmatriculation"
    case CompteBancaire => "compteBancaire"
    case EtablissementMineur => "etablissementMineur"
    case AutreNumero => "autreNumero"
    case AutreLieu => "autreLieu"
  }

  /** The first key of `ks` spelt `name`: the test `name in dictionary`. */
  function FindKey(name: string, ks: seq<Key>): (r: Option<Key>)
    ensures r.Some? ==> KeyName(r.value) == name && r.value in ks
  {
    if |ks| == 0 then None
    else if KeyName(ks[0]) == name then Some(ks[0])
    else FindKey(name, ks[1..])
  }

  /** A key is identified by its length and second character. */
  function Code(s: string): (int, char) {
    (|s|, if |s| > 1 then s[1] else ' ')
  }

  function FromCode(c: (int, char)): Option<Key> {
    match c
    case (7, 'd') => Some(Adresse)
    case (8, 'a') => Some(Cadastre)
    case (14, 'e') => Some(PersonneMorale)
    case (21, 'e') => Some(PersonnePhysicoMorale)
    case (22, 'e') => Some(PersonnePhysiquePrenom)
    case (19, 'e') => Some(PersonnePhysiqueNom)
    case (16, 'e') => Some(PersonnePhysique)
    case (19, 'r') => Some(ProfessionnelAvocat)
    case (30, 'r') => Some(ProfessionnelMagistratGreffier)
    case (15, 'a') => Some(DateDeNaissance)
    case (11, 'a') => Some(DateDeDeces)
    case (13, 'a') => Some(DateDeMariage)
    case (17, 'e') => Some(TelephoneFaxEmail)
    case (7, 'o') => Some(NoInsee)
    case (22, 'l') => Some(PlaqueDImmatriculation)
    case (14, 'o') => Some(CompteBancaire)
    case (19, 't') => Some(EtablissementMineur)
    case (11, 'u') => Some(AutreNumero)
    case (9, 'u') => Some(AutreLieu)
    case _ => None
  }

  lemma FromCodeKeyName(k: Key)
    ensures FromCode(Code(KeyName(k))) == Some(k)
  {
    if k.Adresse? || k.Cadastre? || k.PersonneMorale? {
      CodesOf1(k);
    } else if k.PersonnePhysicoMorale? || k.PersonnePhysiquePrenom? || k.PersonnePhysiqueNom? {
      CodesOf2(k);
    } else if k.PersonnePhysique? || k.ProfessionnelAvocat? || k.ProfessionnelMagistratGreffier? {
      CodesOf3(k);
    } else if k.DateDeNaissance? || k.DateDeDeces? || k.DateDeMariage? {
      CodesOf4(k);
    } else if k.TelephoneFaxEmail? || k.NoInsee? || k.PlaqueDImmatriculation? {
      CodesOf5(k);
    } else if k.CompteBancaire? || k.EtablissementMineur? || k.AutreNumero? {
      CodesOf6(k);
    } else {
      CodesOf7(k);
    }
  }

  lemma CodesOf1(k: Key)
    requires k.Adresse? || k.Cadastre? || k.PersonneMorale?
    ensures FromCode(Code(KeyName(k))) == Some(k)
  {
  }

  lemma CodesOf2(k: Key)
    requires k.PersonnePhysicoMorale? || k.PersonnePhysiquePrenom? || k.PersonnePhysiqueNom?
    ensures FromCode(Code(KeyName(k))) == Some(k)
  {
  }

  lemma CodesOf3(k: Key)
    requires k.PersonnePhysique? || k.ProfessionnelAvocat? || k.ProfessionnelMagistratGreffier?
    ensures FromCode(Code(KeyName(k))) == Some(k)
  {
  }

  lemma CodesOf4(k: Key)
    requires k.DateDeNaissance? || k.DateDeDeces? || k.DateDeMariage?
    ensures FromCode(Code(KeyName(k))) == Some(k)
  {
  }

  lemma CodesOf5(k: Key)
    requires k.TelephoneFaxEmail? || k.NoInsee? || k.PlaqueDImmatriculation?
    ensures FromCode(Code(KeyName(k))) == Some(k)
  {
  }

  lemma CodesOf6(k: Key)
    requires k.CompteBancaire? || k.EtablissementMineur? || k.AutreNumero?
    ensures FromCode(Code(KeyName(k))) == Some(k)
  {
  }

  lemma CodesOf7(k: Key)
    requires k.AutreLieu?
    ensures FromCode(Code(KeyName(k))) == Some(k)
  {
  }

  lemma KeyNameInjective(a: Key, b: Key)
    requires KeyName(a) == KeyName(b)
    ensures a == b
  {
    FromCodeKeyName(a);
    FromCodeKeyName(b);
  }

  lemma {:induction false} FindListedKey(k: Key, ks: seq<Key>)
    requires k in ks
    ensures FindKey(KeyName(k), ks) == Some(k)
  {
    if ks[0] != k {
      if KeyName(ks[0]) == KeyName(k) {
        KeyNameInjective(ks[0], k);
      }
      FindListedKey(k, ks[1..]);
    }
  }

  /** The label a name is exported under: the dictionary's value for a key,
      the name itself otherwise. */
  function Rename(value: Key -> string, name: string): string {
    match FindKey(name, AllKeys)
    case Some(k) => value(k)
    case None => name
  }

  /** The loop over the entities: a label that is a key of the dictionary is
      replaced by its value; every other label, and every other field, is
      left as it was. */
  function MapToCamelCase(value: Key -> string, es: seq<LabelledSpan>): (r: seq<LabelledSpan>)
    ensures |r| == |es|
    ensures forall i :: 0 <= i < |es| ==>
      r[i].text == es[i].text && r[i].start == es[i].start && r[i].source == es[i].source
    ensures forall i :: 0 <= i < |es| ==>
      (FindKey(es[i].name, AllKeys).None? ==> r[i].name == es[i].name) &&
      (FindKey(es[i].name, AllKeys).Some? ==> r[i].name == value(FindKey(es[i].name, AllKeys).value))
  {
    seq(|es|, i requires 0 <= i < |es| => es[i].(name := Rename(value, es[i].name)))
  }

  /** Every key is named in lower case. */
  predicate NoUpper(s: string) {
    forall i :: 0 <= i < |s| ==> !IsAsciiUpper(s[i])
  }

  lemma KeysLowerCase1()
    ensures NoUpper("adresse") && NoUpper("cadastre")
  {
  }

  lemma KeysLowerCase2()
    ensures NoUpper("personnemorale") && NoUpper("personnephysicomorale")
  {
  }

  lemma KeysLowerCase3()
    ensures NoUpper("personnephysiqueprenom") && NoUpper("personnephysiquenom")
  {
  }

  lemma KeysLowerCase4()
    ensures NoUpper("personnephysique") && NoUpper("professionnelavocat")
  {
  }

  lemma KeysLowerCase5()
    ensures NoUpper("professionnelmagistratgreffier") && NoUpper("datedenaissance")
  {
  }

  lemma KeysLowerCase6()
    ensures NoUpper("datededeces") && NoUpper("datedemariage")
  {
  }

  lemma KeysLowerCase7()
    ensures NoUpper("telephonefaxemail") && NoUpper("noinsee")
  {
  }

  lemma KeysLowerCase8()
    ensures NoUpper("plaquedimmatriculation") && NoUpper("comptebancaire")
  {
  }

  lemma KeysLowerCase9()
    ensures NoUpper("etablissementmineur") && NoUpper("autrenumero")
  {
  }

  lemma KeysLowerCase10()
    ensures NoUpper("autrelieu")
  {
  }

  lemma KeyNameLowerCase(k: Key)
    ensures NoUpper(KeyName(k))
  {
    KeysLowerCase1();
    KeysLowerCase2();
    KeysLowerCase3();
    KeysLowerCase4();
    KeysLowerCase5();
    KeysLowerCase6();
    KeysLowerCase7();
    KeysLowerCase8();
    KeysLowerCase9();
    KeysLowerCase10();
  }

  /** A name holding an upper-case letter is no key. */
  lemma {:induction false} UpperIsNoKey(name: string, ks: seq<Key>)
    requires !NoUpper(name)
    ensures FindKey(name, ks) == None
  {
    if |ks| > 0 {
      KeyNameLowerCase(ks[0]);
      UpperIsNoKey(name, ks[1..]);
    }
  }

  /** Every value is its own key or holds an upper-case letter. */
  lemma ValueShape(k: Key)
    ensures Value(k) == KeyName(k) || !NoUpper(Value(k))
  {
    if k.Adresse? || k.Cadastre? || k.PersonneMorale? || k.PersonnePhysicoMorale? || k.PersonnePhysiquePrenom? || k.PersonnePhysiqueNom? || k.PersonnePhysique? {
      ValueShape1(k);
    } else if k.ProfessionnelAvocat? || k.ProfessionnelMagistratGreffier? || k.DateDeNaissance? || k.DateDeDeces? || k.DateDeMariage? || k.TelephoneFaxEmail? {
      ValueShape2(k);
    } else {
      ValueShape3(k);
    }
  }

  lemma ValueShape1(k: Key)
    requires k.Adresse? || k.Cadastre? || k.PersonneMorale? || k.PersonnePhysicoMorale? || k.PersonnePhysiquePrenom? || k.PersonnePhysiqueNom? || k.PersonnePhysique?
    ensures Value(k) == KeyName(k) || !NoUpper(Value(k))
  {
    match k {
      case Adresse => {}
      case Cadastre => {}
      case PersonneMorale => assert IsAsciiUpper(Value(k)[8]);
      case PersonnePhysicoMorale => assert IsAsciiUpper(Value(k)[8]);
      case PersonnePhysiquePrenom => assert IsAsciiUpper(Value(k)[8]);
      case PersonnePhysiqueNom => assert IsAsciiUpper(Value(k)[8]);
      case PersonnePhysique => assert IsAsciiUpper(Value(k)[8]);
    }
  }

  lemma ValueShape2(k: Key)
    requires k.ProfessionnelAvocat? || k.ProfessionnelMagistratGreffier? || k.DateDeNaissance? || k.DateDeDeces? || k.DateDeMariage? || k.TelephoneFaxEmail?
    ensures Value(k) == KeyName(k) || !NoUpper(Value(k))
  {
    match k {
      case ProfessionnelAvocat => assert IsAsciiUpper(Value(k)[13]);
      case ProfessionnelMagistratGreffier => assert IsAsciiUpper(Value(k)[13]);
      case DateDeNaissance => assert IsAsciiUpper(Value(k)[4]);
      case DateDeDeces => assert IsAsciiUpper(Value(k)[4]);
      case DateDeMariage => assert IsAsciiUpper(Value(k)[4]);
      case TelephoneFaxEmail => assert IsAsciiUpper(Value(k)[9]);
    }
  }

  lemma ValueShape3(k: Key)
    requires k.NoInsee? || k.PlaqueDImmatriculation? || k.CompteBancaire? || k.EtablissementMineur? || k.AutreNumero? || k.AutreLieu?
    ensures Value(k) == KeyName(k) || !NoUpper(Value(k))
  {
    match k {
      case NoInsee => assert IsAsciiUpper(Value(k)[2]);
      case PlaqueDImmatriculation => assert IsAsciiUpper(Value(k)[6]);
      case CompteBancaire => assert IsAsciiUpper(Value(k)[6]);
      case EtablissementMineur => assert IsAsciiUpper(Value(k)[13]);
      case AutreNumero => assert IsAsciiUpper(Value(k)[5]);
      case AutreLieu => assert IsAsciiUpper(Value(k)[5]);
    }
  }

  /** A renamed label is renamed no further. */
  lemma RenameSettles(name: string)
    ensures Rename(Value, Rename(Value, name)) == Rename(Value, name)
  {
    match FindKey(name, AllKeys)
    case None =>
    case Some(k) =>
      ValueShape(k);
      if Value(k) == KeyName(k) {
        FindListedKey(k, AllKeys);
      } else {
        UpperIsNoKey(Value(k), AllKeys);
      }
  }

  /** Mapping twice is mapping once. */
  lemma MapToCamelCaseIdempotent(es: seq<LabelledSpan>)
    ensures MapToCamelCase(Value, MapToCamelCase(Value, es)) == MapToCamelCase(Value, es)
  {
    var once := MapToCamelCase(Value, es);
    forall i | 0 <= i < |es| ensures Rename(Value, once[i].name) == once[i].name {
      RenameSettles(es[i].name);
    }
  }

  /** Every key is renamed to its value. */
  lemma RenameKey(value: Key -> string, k: Key)
    ensures Rename(value, KeyName(k)) == value(k)
  {
    FindListedKey(k, AllKeys);
  }

  /** The lawyer key is mapped to the lawyer category's own value, so the
      exported label parses as that category again. */
  lemma LawyerLabelParses(k: Key, c: Types.Category)
    requires k == ProfessionnelAvocat && c == Types.ProfessionnelAvocat
    ensures Rename(Value, KeyName(k)) == Types.CategoryValue(c)
    ensures Types.ParseCategory(Rename(Value, KeyName(k))) == Some(c)
  {
    assert Rename(Value, KeyName(k)) == Value(k) by {
      RenameKey(Value, k);
    }
    assert Value(k) == Types.CategoryValue(c);
    assert Types.ParseCategory(Types.CategoryValue(c)) == Some(c) by {
      Types.ParseCategoryValue(c);
    }
  }

  /** As written, the lawyer key is exported under a name that is no
      category. */
  lemma LawyerLabelMisspelt(k: Key)
    requires k == ProfessionnelAvocat
    ensures Rename(ValueAsWritten, KeyName(k)) == "professionelAvocat"
    ensures Types.ParseCategory(Rename(ValueAsWritten, KeyName(k))) == None
  {
    RenameKey(ValueAsWritten, k);
    MisspeltIsNoCategory();
  }

  lemma MisspeltIsNoCategory()
    ensures Types.ParseCategory("professionelAvocat") == None
  {
    var v := "professionelAvocat";
    assert |v| == 18 && v[1] == 'r';
    assert Types.Code(v) == (18, 'r');
    assert Types.FromCode((18, 'r')) == None;
    assert v != "insee" by {
      assert |"insee"| == 5;
    }
    Types.ParseCategoryCode(v);
  }
}
