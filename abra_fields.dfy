/**
 * The fields of the Abra export that the handler reads, as data: for each, the record field
 * (and database column) it fills, the XML tag it is read from, and the reader applied to it,
 * in the order in which the handler reads them.
 */
module AbraFields {
  import opened Leaves

  datatype Field = Field(column: string, tag: string, kind: Kind)

  /** The invoice header fields, read from each <faktura-vydana> element. */
  const HeaderFields: seq<Field> := [
    Field("kod", "kod", TextKind), Field("last_update", "lastUpdate", DateKind), Field("dat_vyst", "datVyst", DateKind),
    Field("duzp_puv", "duzpPuv", DateKind), Field("duzp_ucto", "duzpUcto", DateKind), Field("dat_splat", "datSplat", DateKind),
    Field("dat_uhr", "datUhr", DateKind), Field("dat_termin", "datTermin", DateKind), Field("dat_real", "datReal", DateKind),
    Field("dat_sazby_dph", "datSazbyDph", DateKind), Field("popis", "popis", TextKind), Field("poznam", "poznam", TextKind),
    Field("uvod_txt", "uvodTxt", TextKind), Field("zav_txt", "zavTxt", TextKind), Field("sum_osv", "sumOsv", FloatKind),
    Field("sum_zkl_sniz", "sumZklSniz", FloatKind), Field("sum_zkl_sniz2", "sumZklSniz2", FloatKind), Field("sum_zkl_zakl", "sumZklZakl", FloatKind),
    Field("sum_zkl_celkem", "sumZklCelkem", FloatKind), Field("sum_dph_sniz", "sumDphSniz", FloatKind), Field("sum_dph_sniz2", "sumDphSniz2", FloatKind),
    Field("sum_dph_zakl", "sumDphZakl", FloatKind), Field("sum_dph_celkem", "sumDphCelkem", FloatKind), Field("sum_celk_sniz", "sumCelkSniz", FloatKind),
    Field("sum_celk_sniz2", "sumCelkSniz2", FloatKind), Field("sum_celk_zakl", "sumCelkZakl", FloatKind), Field("sum_celkem", "sumCelkem", FloatKind),
    Field("sum_osv_men", "sumOsvMen", FloatKind), Field("sum_zkl_sniz_men", "sumZklSnizMen", FloatKind), Field("sum_zkl_sniz2_men", "sumZklSniz2Men", FloatKind),
    Field("sum_zkl_zakl_men", "sumZklZaklMen", FloatKind), Field("sum_zkl_celkem_men", "sumZklCelkemMen", FloatKind), Field("sum_dph_zakl_men", "sumDphZaklMen", FloatKind),
    Field("sum_dph_sniz_men", "sumDphSnizMen", FloatKind), Field("sum_dph_sniz2_men", "sumDphSniz2Men", FloatKind), Field("sum_dph_celkem_men", "sumDphCelkemMen", FloatKind),
    Field("sum_celk_sniz_men", "sumCelkSnizMen", FloatKind), Field("sum_celk_sniz2_men", "sumCelkSniz2Men", FloatKind), Field("sum_celk_zakl_men", "sumCelkZaklMen", FloatKind),
    Field("sum_celkem_men", "sumCelkemMen", FloatKind), Field("sum_naklady", "sumNaklady", FloatKind), Field("sleva_dokl", "slevaDokl", FloatKind),
    Field("kurz", "kurz", FloatKind), Field("kurz_mnozstvi", "kurzMnozstvi", FloatKind), Field("stav_uziv_k", "stavUzivK", TextKind),
    Field("naz_firmy", "nazFirmy", TextKind), Field("ulice", "ulice", TextKind), Field("mesto", "mesto", TextKind),
    Field("psc", "psc", TextKind), Field("ean_kod", "eanKod", TextKind), Field("ic", "ic", TextKind),
    Field("dic", "dic", TextKind), Field("pocet_priloh", "pocetPriloh", FloatKind), Field("postovni_shodna", "postovniShodna", BoolKind),
    Field("fa_nazev", "faNazev", TextKind), Field("fa_nazev2", "faNazev2", TextKind), Field("fa_ulice", "faUlice", TextKind),
    Field("fa_mesto", "faMesto", TextKind), Field("fa_psc", "faPsc", TextKind), Field("fa_ean_kod", "faEanKod", TextKind),
    Field("buc", "buc", TextKind), Field("iban", "iban", TextKind), Field("bic", "bic", TextKind),
    Field("spec_sym", "specSym", TextKind), Field("bez_polozek", "bezPolozek", BoolKind), Field("ucetni", "ucetni", BoolKind),
    Field("szb_dph_sniz", "szbDphSniz", FloatKind), Field("szb_dph_sniz2", "szbDphSniz2", FloatKind), Field("szb_dph_zakl", "szbDphZakl", FloatKind),
    Field("uzp_tuzemsko", "uzpTuzemsko", BoolKind), Field("zuctovano", "zuctovano", BoolKind), Field("dat_ucto", "datUcto", DateKind),
    Field("vyloucit_saldo", "vyloucitSaldo", BoolKind), Field("storno", "storno", BoolKind), Field("zaokr_jak_sum_k", "zaokrJakSumK", TextKind),
    Field("zaokr_na_sum_k", "zaokrNaSumK", TextKind), Field("zaokr_jak_dph_k", "zaokrJakDphK", TextKind), Field("zaokr_na_dph_k", "zaokrNaDphK", TextKind),
    Field("metoda_zaokr_dokl_k", "metodaZaokrDoklK", TextKind), Field("vytvaret_kor_pol", "vytvaretKorPol", BoolKind), Field("stitky", "stitky", TextKind),
    Field("typ_dokl", "typDokl", TextKind), Field("mena", "mena", TextKind), Field("kon_sym", "konSym", TextKind),
    Field("firma", "firma", TextKind), Field("stat", "stat", TextKind), Field("fa_stat", "faStat", TextKind),
    Field("region", "region", TextKind), Field("fa_region", "faRegion", TextKind), Field("mist_urc", "mistUrc", TextKind),
    Field("ban_spoj_dod", "banSpojDod", TextKind), Field("bankovni_ucet", "bankovniUcet", TextKind), Field("typ_dokl_ban", "typDoklBan", TextKind),
    Field("typ_uc_op", "typUcOp", TextKind), Field("prim_ucet", "primUcet", TextKind), Field("proti_ucet", "protiUcet", TextKind),
    Field("dph_zakl_ucet", "dphZaklUcet", TextKind), Field("dph_sniz_ucet", "dphSnizUcet", TextKind), Field("dph_sniz2_ucet", "dphSniz2Ucet", TextKind),
    Field("smer_kod", "smerKod", TextKind), Field("stat_dph", "statDph", TextKind), Field("clen_dph", "clenDph", TextKind),
    Field("stredisko", "stredisko", TextKind), Field("cinnost", "cinnost", TextKind), Field("zakazka", "zakazka", TextKind),
    Field("uzivatel", "uzivatel", TextKind), Field("zodp_osoba", "zodpOsoba", TextKind), Field("kontakt_osoba", "kontaktOsoba", TextKind),
    Field("kontakt_jmeno", "kontaktJmeno", TextKind), Field("kontakt_email", "kontaktEmail", TextKind), Field("kontakt_tel", "kontaktTel", TextKind),
    Field("rada", "rada", TextKind), Field("forma_dopravy", "formaDopravy", TextKind), Field("uuid", "uuid", TextKind),
    Field("source", "source", TextKind), Field("clen_kon_vyk_dph", "clenKonVykDph", TextKind), Field("dat_up1", "datUp1", DateKind),
    Field("dat_up2", "datUp2", DateKind), Field("dat_smir", "datSmir", DateKind), Field("dat_penale", "datPenale", DateKind),
    Field("podpis_prik", "podpisPrik", BoolKind), Field("prikaz_sum", "prikazSum", FloatKind), Field("prikaz_sum_men", "prikazSumMen", FloatKind),
    Field("juh_sum", "juhSum", FloatKind), Field("juh_sum_men", "juhSumMen", FloatKind), Field("juh_dat", "juhDat", FloatKind),
    Field("juh_dat_men", "juhDatMen", FloatKind), Field("zbyva_uhradit", "zbyvaUhradit", FloatKind), Field("zbyva_uhradit_men", "zbyvaUhraditMen", FloatKind),
    Field("forma_uhrady_cis", "formaUhradyCis", TextKind), Field("stav_uhr_k", "stavUhrK", TextKind), Field("juh_sum_pp", "juhSumPp", FloatKind),
    Field("juh_sum_pp_men", "juhSumPpMen", FloatKind), Field("sum_prepl", "sumPrepl", FloatKind), Field("sum_prepl_men", "sumPreplMen", FloatKind),
    Field("sum_zalohy", "sumZalohy", FloatKind), Field("sum_zalohy_men", "sumZalohyMen", FloatKind), Field("stav_odpocet_k", "stavOdpocetK", TextKind),
    Field("generovat_skl", "generovatSkl", BoolKind), Field("zaokrouhlit_po_odpoctu", "zaokrouhlitPoOdpoctu", BoolKind), Field("hrom_fakt", "hromFakt", BoolKind),
    Field("zdroj_pro_skl", "zdrojProSkl", TextKind), Field("prodejka", "prodejka", BoolKind), Field("stav_mail_k", "stavMailK", TextKind),
    Field("dobropisovano", "dobropisovano", BoolKind), Field("sum_celkem_bez_zaloh", "sumCelkemBezZaloh", FloatKind), Field("sum_celkem_bez_zaloh_men", "sumCelkemBezZalohMen", FloatKind),
    Field("odpoc_auto", "odpocAuto", BoolKind), Field("cis_obj", "cisObj", TextKind), Field("var_sym", "varSym", TextKind)
  ]

  /** The invoice item fields, read from each item element. */
  const ItemFields: seq<Field> := [
    Field("last_update", "lastUpdate", DateKind), Field("kod", "kod", TextKind), Field("ean_kod", "eanKod", TextKind),
    Field("nazev", "nazev", TextKind), Field("nazev_a", "nazevA", TextKind), Field("nazev_b", "nazevB", TextKind),
    Field("nazev_c", "nazevC", TextKind), Field("cis_rad", "cisRad", FloatKind), Field("typ_polozky_k", "typPolozkyK", TextKind),
    Field("baleni_id", "baleniId", FloatKind), Field("mnoz_baleni", "mnozBaleni", FloatKind), Field("mnoz_mj", "mnozMj", FloatKind),
    Field("typ_ceny_dph_k", "typCenyDphK", TextKind), Field("typ_szb_dph_k", "typSzbDphK", TextKind), Field("szb_dph", "szbDph", FloatKind),
    Field("cena_mj", "cenaMj", FloatKind), Field("sleva_pol", "slevaPol", FloatKind), Field("upl_sleva_dokl", "uplSlevaDokl", BoolKind),
    Field("sum_zkl", "sumZkl", FloatKind), Field("sum_dph", "sumDph", FloatKind), Field("sum_celkem", "sumCelkem", FloatKind),
    Field("sum_zkl_men", "sumZklMen", FloatKind), Field("sum_dph_men", "sumDphMen", FloatKind), Field("sum_celkem_men", "sumCelkemMen", FloatKind),
    Field("objem", "objem", FloatKind), Field("cen_jednotka", "cenJednotka", FloatKind), Field("typ_vyp_ceny_k", "typVypCenyK", TextKind),
    Field("cena_mj_nakup", "cenaMjNakup", FloatKind), Field("cena_mj_prodej", "cenaMjProdej", FloatKind), Field("cena_mj_cenik_tuz", "cenaMjCenikTuz", FloatKind),
    Field("proc_zakl", "procZakl", FloatKind), Field("sleva_mnoz", "slevaMnoz", FloatKind), Field("zaokr_jak_k", "zaokrJakK", TextKind),
    Field("zaokr_na_k", "zaokrNaK", TextKind), Field("sarze", "sarze", TextKind), Field("expirace", "expirace", TextKind),
    Field("dat_trvan", "datTrvan", TextKind), Field("dat_vyroby", "datVyroby", TextKind), Field("stav_uziv_k", "stavUzivK", TextKind),
    Field("mnoz_mj_plan", "mnozMjPlan", FloatKind), Field("mnoz_mj_real", "mnozMjReal", FloatKind), Field("auto_zaokr", "autoZaokr", BoolKind),
    Field("autogen", "autogen", BoolKind), Field("poznam", "poznam", TextKind), Field("sleva_dokl", "slevaDokl", FloatKind),
    Field("dat_vyst", "datVyst", TextKind), Field("kop_zkl_md_ucet", "kopZklMdUcet", BoolKind), Field("kop_zkl_dal_ucet", "kopZklDalUcet", BoolKind),
    Field("kop_dph_md_ucet", "kopDphMdUcet", BoolKind), Field("kop_dph_dal_ucet", "kopDphDalUcet", BoolKind), Field("kop_typ_uc_op", "kopTypUcOp", BoolKind),
    Field("kop_zakazku", "kopZakazku", BoolKind), Field("kop_stred", "kopStred", BoolKind), Field("kop_cinnost", "kopCinnost", BoolKind),
    Field("kop_klice", "kopKlice", BoolKind), Field("kop_clen_dph", "kopClenDph", BoolKind), Field("kop_dat_ucto", "kopDatUcto", BoolKind),
    Field("dat_ucto", "datUcto", TextKind), Field("storno", "storno", BoolKind), Field("storno_pol", "stornoPol", BoolKind),
    Field("sklad", "sklad", TextKind), Field("stredisko", "stredisko", TextKind), Field("cinnost", "cinnost", TextKind),
    Field("mena", "mena", TextKind), Field("typ_uc_op", "typUcOp", TextKind), Field("zkl_md_ucet", "zklMdUcet", TextKind),
    Field("zkl_dal_ucet", "zklDalUcet", TextKind), Field("dph_md_ucet", "dphMdUcet", TextKind), Field("dph_dal_ucet", "dphDalUcet", TextKind),
    Field("zakazka", "zakazka", TextKind), Field("dodavatel", "dodavatel", TextKind), Field("clen_dph", "clenDph", TextKind),
    Field("dph_pren", "dphPren", TextKind), Field("cenik", "cenik", TextKind), Field("cen_hlad", "cenHlad", TextKind),
    Field("mj", "mj", TextKind), Field("mj_objem", "mjObjem", TextKind), Field("sazba_dph", "sazbaDph", TextKind),
    Field("sazba_dph_puv", "sazbaDphPuv", TextKind), Field("vyrobni_cisla_ok", "vyrobniCislaOk", BoolKind), Field("id_pol_obch_zdroj", "idPolObchZdroj", TextKind),
    Field("skup_plneni", "skupPlneni", TextKind), Field("stitky", "stitky", TextKind), Field("source", "source", TextKind),
    Field("clen_kon_vyk_dph", "clenKonVykDph", TextKind), Field("kop_clen_kon_vyk_dph", "kopClenKonVykDph", BoolKind), Field("ciselny_kod_zbozi", "ciselnyKodZbozi", TextKind),
    Field("druh_zbozi", "druhZbozi", TextKind), Field("dokl_fak", "doklFak", TextKind), Field("poplatek_parent_pol_fak", "poplatekParentPolFak", TextKind),
    Field("zdroj_pro_skl", "zdrojProSkl", TextKind), Field("zaloha", "zaloha", BoolKind), Field("prodejka", "prodejka", BoolKind),
    Field("vyrobni_cisla_prijata", "vyrobniCislaPrijata", TextKind), Field("vyrobni_cisla_vydana", "vyrobniCislaVydana", TextKind)
  ]

  /** Columns of the invoices table that the sync writes but no reader fills; the record leaves them empty. */
  const UnreadInvoiceColumns: seq<string> := ["zamek_k", "cis_dosle", "cis_sml"]

  function Columns(fs: seq<Field>): (r: set<string>)
    ensures forall k | 0 <= k < |fs| :: fs[k].column in r
    ensures forall c | c in r :: exists k | 0 <= k < |fs| :: fs[k].column == c
  {
    set k | 0 <= k < |fs| :: fs[k].column
  }

  /** No two fields fill the same column, as no keyword argument is given twice. */
  predicate DistinctColumns(fs: seq<Field>) {
    forall i, j | 0 <= i < j < |fs| :: fs[i].column != fs[j].column
  }
}
